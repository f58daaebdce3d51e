/**
 * `main` of the doc hygiene check: the fuzzy scan of every Markdown file
 * under the root, the checks on the PRD and plan directories, and the exit
 * code. The file system is given as a `Config`: which directories exist and
 * the Markdown files found in each, already listed in sorted path order.
 */
module DocHygiene {
  import opened StringOrder
  import opened Findings
  import opened ReqIds
  import opened PlanTrace
  import opened Fuzzy

  /** What `main` learns from its arguments and the file system. */
  datatype Config = Config(
    rootDocs: seq<Doc>,      // every Markdown file under the root
    fuzzyTermsArg: string,   // `--fuzzy-terms`
    strict: bool,            // `--strict`
    prdDir: string,          // the resolved PRD directory
    prdExists: bool,         // it exists and is a directory
    prdDocs: seq<Doc>,       // the Markdown files under it
    planDir: string,         // the resolved plan directory
    planExists: bool,
    planDocs: seq<Doc>)

  // ---------------------------------------------------------------------
  // The findings main can add besides the fuzzy ones

  function PrdDirMissing(prdDir: string): Finding {
    Finding(MissingPrdDir, prdDir, 1, "PRD dir missing: " + prdDir)
  }

  function PlanDirMissing(planDir: string): Finding {
    Finding(MissingPlanDir, planDir, 1, "Plan dir missing: " + planDir)
  }

  const NoIdsMessage: string :=
    "No REQ-### IDs found in PRD docs. Add Req IDs for traceability."

  function NoIds(prdDir: string): Finding {
    Finding(NoReqIds, prdDir, 1, NoIdsMessage)
  }

  const NoTraceMessage: string :=
    "Plan doc lacks PRD Trace (expected \"PRD Trace\" / Req IDs / explicit infra/debt note)."

  function NoTrace(path: string): Finding {
    Finding(MissingPrdTrace, path, 1, NoTraceMessage)
  }

  function Unreferenced(planDir: string, id: string): Finding {
    Finding(ReqUnreferenced, planDir, 1, "Req ID not referenced by any plan doc: " + id)
  }

  // ---------------------------------------------------------------------
  // The report, section by section

  /** The terms the scan looks for. */
  function Terms(c: Config): seq<string> {
    FuzzyTerms(c.fuzzyTermsArg)
  }

  /** `prd_ids`: the identifiers of the PRD files, none when the directory is missing. */
  function PrdIds(c: Config): set<string> {
    if c.prdExists then IdsInDocs(c.prdDocs) else {}
  }

  /** `plan_ids`: the identifiers of the plan files, none when the directory is missing. */
  function PlanIds(c: Config): set<string> {
    if c.planExists then IdsInDocs(c.planDocs) else {}
  }

  /** One finding per plan file that fails `_plan_has_prd_trace`, in file order. */
  function TraceFindings(docs: seq<Doc>): seq<Finding>
    decreases |docs|
  {
    if docs == [] then []
    else
      var d := docs[|docs| - 1];
      TraceFindings(docs[..|docs| - 1]) + (if PlanHasPrdTrace(d.text) then [] else [NoTrace(d.path)])
  }

  /** One finding per identifier, in the order given. */
  function UnreferencedFindings(planDir: string, ids: seq<string>): seq<Finding>
    decreases |ids|
  {
    if ids == [] then []
    else UnreferencedFindings(planDir, ids[..|ids| - 1]) + [Unreferenced(planDir, ids[|ids| - 1])]
  }

  /** `sorted(prd_ids - plan_ids)`. */
  function MissingIds(c: Config): seq<string> {
    SortedSet(PrdIds(c) - PlanIds(c))
  }

  function FuzzySection(c: Config): seq<Finding> {
    DocsFindings(c.rootDocs, Terms(c))
  }

  function PrdDirSection(c: Config): seq<Finding> {
    if !c.prdExists && c.strict then [PrdDirMissing(c.prdDir)] else []
  }

  function PlanDirSection(c: Config): seq<Finding> {
    if !c.planExists && c.strict then [PlanDirMissing(c.planDir)] else []
  }

  function NoIdsSection(c: Config): seq<Finding> {
    if c.prdExists && PrdIds(c) == {} then [NoIds(c.prdDir)] else []
  }

  function TraceSection(c: Config): seq<Finding> {
    if c.planExists then TraceFindings(c.planDocs) else []
  }

  function UnreferencedSection(c: Config): seq<Finding> {
    if PrdIds(c) != {} && c.planExists then UnreferencedFindings(c.planDir, MissingIds(c)) else []
  }

  /** Every finding `main` collects, in the order it appends them. */
  function Report(c: Config): seq<Finding> {
    FuzzySection(c) + PrdDirSection(c) + PlanDirSection(c)
    + NoIdsSection(c) + TraceSection(c) + UnreferencedSection(c)
  }

  /** The value `main` returns once the findings are in. */
  function ExitCode(findings: seq<Finding>): (code: int)
    ensures code == 0 || code == 1
    ensures code == 1 <==> findings != []
  {
    if findings != [] then 1 else 0
  }

  // ---------------------------------------------------------------------
  // The sections

  lemma {:induction false} TraceFindingsAreTraceKind(docs: seq<Doc>)
    ensures AllOfKind(TraceFindings(docs), MissingPrdTrace)
    decreases |docs|
  {
    if docs != [] {
      TraceFindingsAreTraceKind(docs[..|docs| - 1]);
    }
  }

  /** A plan file is reported exactly when it fails the trace test. */
  lemma {:induction false} TraceFindingsIff(docs: seq<Doc>, f: Finding)
    ensures f in TraceFindings(docs) <==>
      exists k | 0 <= k < |docs| :: !PlanHasPrdTrace(docs[k].text) && f == NoTrace(docs[k].path)
    decreases |docs|
  {
    if docs != [] {
      var init, d := docs[..|docs| - 1], docs[|docs| - 1];
      assert TraceFindings(docs)
             == TraceFindings(init) + (if PlanHasPrdTrace(d.text) then [] else [NoTrace(d.path)]);
      TraceFindingsIff(init, f);
      if exists k | 0 <= k < |docs| :: !PlanHasPrdTrace(docs[k].text) && f == NoTrace(docs[k].path) {
        var k :| 0 <= k < |docs| && !PlanHasPrdTrace(docs[k].text) && f == NoTrace(docs[k].path);
        if k < |init| { assert docs[k] == init[k]; }
      }
      if exists k | 0 <= k < |init| :: !PlanHasPrdTrace(init[k].text) && f == NoTrace(init[k].path) {
        var k :| 0 <= k < |init| && !PlanHasPrdTrace(init[k].text) && f == NoTrace(init[k].path);
        assert docs[k] == init[k];
      }
    }
  }

  /** The positions of the plan files that fail the trace test, ascending. */
  ghost function FlaggedPositions(docs: seq<Doc>): (js: seq<nat>)
    ensures forall a, b | 0 <= a < b < |js| :: js[a] < js[b]
    ensures forall j :: j in js <==> 0 <= j < |docs| && !PlanHasPrdTrace(docs[j].text)
    decreases |docs|
  {
    if docs == [] then []
    else
      var init := docs[..|docs| - 1];
      var js := FlaggedPositions(init);
      assert forall j | 0 <= j < |init| :: init[j] == docs[j];
      assert forall i | 0 <= i < |js| :: js[i] in js;
      js + (if PlanHasPrdTrace(docs[|docs| - 1].text) then [] else [|docs| - 1])
  }

  /**
   * The trace findings name the failing plan files one each, in the order of
   * the plan file list: the `i`-th finding is for the `i`-th failing file.
   */
  lemma {:induction false} TraceFindingsFollowFlagged(docs: seq<Doc>)
    ensures |TraceFindings(docs)| == |FlaggedPositions(docs)|
    ensures forall i | 0 <= i < |FlaggedPositions(docs)| ::
              FlaggedPositions(docs)[i] < |docs|
              && TraceFindings(docs)[i] == NoTrace(docs[FlaggedPositions(docs)[i]].path)
    decreases |docs|
  {
    if docs != [] {
      var init, d := docs[..|docs| - 1], docs[|docs| - 1];
      TraceFindingsFollowFlagged(init);
      var js, tf := FlaggedPositions(init), TraceFindings(init);
      var all, alljs := TraceFindings(docs), FlaggedPositions(docs);
      if PlanHasPrdTrace(d.text) {
        assert all == tf && alljs == js;
      } else {
        assert all == tf + [NoTrace(d.path)] && alljs == js + [|docs| - 1];
      }
      forall i | 0 <= i < |alljs|
        ensures alljs[i] < |docs| && all[i] == NoTrace(docs[alljs[i]].path)
      {
        if i < |js| {
          assert alljs[i] == js[i] && all[i] == tf[i] && init[js[i]] == docs[js[i]];
        }
      }
    }
  }

  /**
   * Every identifier a plan directory references comes from a plan file that
   * passes the trace test: a flagged file never supplies one.
   */
  lemma ReferencedIdsComeFromTracedDocs(docs: seq<Doc>, x: string)
    requires x in IdsInDocs(docs)
    ensures exists k | 0 <= k < |docs| :: x in IdsIn(docs[k].text) && PlanHasPrdTrace(docs[k].text)
  {
    IdsInDocsIff(docs, x);
    var k :| 0 <= k < |docs| && x in IdsIn(docs[k].text);
    IdsImplyTrace(docs[k].text);
  }

  /** The unreferenced findings name the identifiers given, one each, in their order. */
  lemma {:induction false} UnreferencedFindingsFollowIds(planDir: string, ids: seq<string>)
    ensures |UnreferencedFindings(planDir, ids)| == |ids|
    ensures forall i | 0 <= i < |ids| ::
              UnreferencedFindings(planDir, ids)[i] == Unreferenced(planDir, ids[i])
    decreases |ids|
  {
    if ids != [] {
      var init := ids[..|ids| - 1];
      UnreferencedFindingsFollowIds(planDir, init);
      assert forall i | 0 <= i < |init| :: init[i] == ids[i];
    }
  }

  lemma UnreferencedFindingsAreUnreferencedKind(planDir: string, ids: seq<string>)
    ensures AllOfKind(UnreferencedFindings(planDir, ids), ReqUnreferenced)
  {
    UnreferencedFindingsFollowIds(planDir, ids);
    var fs := UnreferencedFindings(planDir, ids);
    forall f | f in fs ensures f.kind == ReqUnreferenced {
      var i :| 0 <= i < |fs| && fs[i] == f;
    }
  }

  /** The identifiers reported missing: ascending, and exactly the PRD ones no plan file has. */
  lemma MissingIdsAreTheDifference(c: Config)
    ensures StrictlySorted(MissingIds(c))
    ensures forall x :: x in MissingIds(c) <==> x in PrdIds(c) && x !in PlanIds(c)
  {
  }

  // ---------------------------------------------------------------------
  // The report, kind by kind

  /** Filtering findings followed by a run of one kind. */
  lemma OfKindBeforeRun(a: seq<Finding>, b: seq<Finding>, kb: Kind, k: Kind)
    requires AllOfKind(b, kb)
    ensures OfKind(a + b, k) == if k == kb then OfKind(a, k) + b else OfKind(a, k)
  {
    OfKindAppend(a, b, k);
    OfKindUniform(b, kb, k);
    if k != kb {
      assert OfKind(b, k) == [];
      assert OfKind(a, k) + [] == OfKind(a, k);
    }
  }

  /**
   * Six runs, each of a single kind and the kinds all different, filter to
   * the run of the kind asked for.
   */
  lemma OfKindOfRuns(s1: seq<Finding>, s2: seq<Finding>, s3: seq<Finding>,
                     s4: seq<Finding>, s5: seq<Finding>, s6: seq<Finding>, k: Kind)
    requires AllOfKind(s1, FuzzyTerm) && AllOfKind(s2, MissingPrdDir)
    requires AllOfKind(s3, MissingPlanDir) && AllOfKind(s4, NoReqIds)
    requires AllOfKind(s5, MissingPrdTrace) && AllOfKind(s6, ReqUnreferenced)
    ensures OfKind(s1 + s2 + s3 + s4 + s5 + s6, k) ==
      match k
      case FuzzyTerm => s1
      case MissingPrdDir => s2
      case MissingPlanDir => s3
      case NoReqIds => s4
      case MissingPrdTrace => s5
      case ReqUnreferenced => s6
  {
    OfKindUniform(s1, FuzzyTerm, k);
    OfKindBeforeRun(s1, s2, MissingPrdDir, k);
    OfKindBeforeRun(s1 + s2, s3, MissingPlanDir, k);
    OfKindBeforeRun(s1 + s2 + s3, s4, NoReqIds, k);
    OfKindBeforeRun(s1 + s2 + s3 + s4, s5, MissingPrdTrace, k);
    OfKindBeforeRun(s1 + s2 + s3 + s4 + s5, s6, ReqUnreferenced, k);
  }

  /** The report filtered to one kind is the section that kind comes from. */
  lemma ReportOfKind(c: Config, k: Kind)
    ensures OfKind(Report(c), k) ==
      match k
      case FuzzyTerm => FuzzySection(c)
      case MissingPrdDir => PrdDirSection(c)
      case MissingPlanDir => PlanDirSection(c)
      case NoReqIds => NoIdsSection(c)
      case MissingPrdTrace => TraceSection(c)
      case ReqUnreferenced => UnreferencedSection(c)
  {
    DocsFindingsAreFuzzy(c.rootDocs, Terms(c));
    TraceFindingsAreTraceKind(c.planDocs);
    UnreferencedFindingsAreUnreferencedKind(c.planDir, MissingIds(c));
    OfKindOfRuns(FuzzySection(c), PrdDirSection(c), PlanDirSection(c),
                 NoIdsSection(c), TraceSection(c), UnreferencedSection(c), k);
  }

  /**
   * The report lists its findings grouped by kind, in this order: fuzzy
   * terms, missing PRD directory, missing plan directory, no identifiers,
   * missing trace, unreferenced identifiers.
   */
  lemma ReportIsGroupedByKind(c: Config)
    ensures Report(c) ==
      OfKind(Report(c), FuzzyTerm) + OfKind(Report(c), MissingPrdDir)
      + OfKind(Report(c), MissingPlanDir) + OfKind(Report(c), NoReqIds)
      + OfKind(Report(c), MissingPrdTrace) + OfKind(Report(c), ReqUnreferenced)
  {
    ReportOfKind(c, FuzzyTerm);
    ReportOfKind(c, MissingPrdDir);
    ReportOfKind(c, MissingPlanDir);
    ReportOfKind(c, NoReqIds);
    ReportOfKind(c, MissingPrdTrace);
    ReportOfKind(c, ReqUnreferenced);
  }

  /**
   * A fuzzy finding is reported exactly for a root file, a line of it and
   * a non-empty term of the list that occurs in that line.
   */
  lemma FuzzyFindingsIff(c: Config, f: Finding)
    ensures f in OfKind(Report(c), FuzzyTerm) <==>
      exists k | 0 <= k < |c.rootDocs| :: f in FileFindings(c.rootDocs[k], Terms(c))
  {
    ReportOfKind(c, FuzzyTerm);
    if f in OfKind(Report(c), FuzzyTerm) {
      DocsFindingsFromFiles(c.rootDocs, Terms(c), f);
    }
    if exists k | 0 <= k < |c.rootDocs| :: f in FileFindings(c.rootDocs[k], Terms(c)) {
      var k :| 0 <= k < |c.rootDocs| && f in FileFindings(c.rootDocs[k], Terms(c));
      FileFindingsInDocsFindings(c.rootDocs, Terms(c), k, f);
    }
  }


  /** The missing-directory findings: one per missing directory, and only under `--strict`. */
  lemma MissingDirFindings(c: Config)
    ensures OfKind(Report(c), MissingPrdDir) ==
              if !c.prdExists && c.strict then [PrdDirMissing(c.prdDir)] else []
    ensures OfKind(Report(c), MissingPlanDir) ==
              if !c.planExists && c.strict then [PlanDirMissing(c.planDir)] else []
    ensures !c.strict ==> OfKind(Report(c), MissingPrdDir) == OfKind(Report(c), MissingPlanDir) == []
  {
    ReportOfKind(c, MissingPrdDir);
    ReportOfKind(c, MissingPlanDir);
  }

  /**
   * `no-req-ids` is reported, once, exactly when the PRD directory exists and
   * none of its files holds an identifier; then nothing can be unreferenced.
   */
  lemma NoIdsFindings(c: Config)
    ensures OfKind(Report(c), NoReqIds) ==
              if c.prdExists && IdsInDocs(c.prdDocs) == {} then [NoIds(c.prdDir)] else []
    ensures |OfKind(Report(c), NoReqIds)| == 1 <==> c.prdExists && IdsInDocs(c.prdDocs) == {}
    ensures OfKind(Report(c), NoReqIds) != [] ==> OfKind(Report(c), ReqUnreferenced) == []
  {
    ReportOfKind(c, NoReqIds);
    ReportOfKind(c, ReqUnreferenced);
  }

  /**
   * The trace findings: only when the plan directory exists, one for each
   * plan file that fails the test, and such a file references no identifier.
   */
  lemma TraceFindingsInReport(c: Config, f: Finding)
    ensures f in OfKind(Report(c), MissingPrdTrace) <==>
      c.planExists && exists k | 0 <= k < |c.planDocs| ::
        !PlanHasPrdTrace(c.planDocs[k].text) && f == NoTrace(c.planDocs[k].path)
    ensures forall d | d in c.planDocs && !PlanHasPrdTrace(d.text) :: IdsIn(d.text) == {}
  {
    ReportOfKind(c, MissingPrdTrace);
    TraceFindingsIff(c.planDocs, f);
    forall d | d in c.planDocs && !PlanHasPrdTrace(d.text) ensures IdsIn(d.text) == {} {
      FlaggedHasNoIds(d.text);
    }
  }

  /**
   * The trace findings in the report: none without a plan directory, and
   * otherwise one per failing plan file, in the order the files are listed.
   */
  lemma TraceFindingsOrderInReport(c: Config)
    ensures !c.planExists ==> OfKind(Report(c), MissingPrdTrace) == []
    ensures c.planExists ==>
      && |OfKind(Report(c), MissingPrdTrace)| == |FlaggedPositions(c.planDocs)|
      && forall i | 0 <= i < |FlaggedPositions(c.planDocs)| ::
           FlaggedPositions(c.planDocs)[i] < |c.planDocs|
           && OfKind(Report(c), MissingPrdTrace)[i]
              == NoTrace(c.planDocs[FlaggedPositions(c.planDocs)[i]].path)
  {
    ReportOfKind(c, MissingPrdTrace);
    TraceFindingsFollowFlagged(c.planDocs);
  }

  /**
   * The unreferenced findings: when the PRD has identifiers and the plan
   * directory exists, one per PRD identifier no plan file holds, in
   * ascending order; otherwise none.
   */
  lemma UnreferencedFindingsInReport(c: Config)
    ensures |OfKind(Report(c), ReqUnreferenced)| ==
              if PrdIds(c) != {} && c.planExists then |PrdIds(c) - PlanIds(c)| else 0
    ensures PrdIds(c) != {} && c.planExists ==>
              forall i | 0 <= i < |MissingIds(c)| ::
                OfKind(Report(c), ReqUnreferenced)[i] == Unreferenced(c.planDir, MissingIds(c)[i])
    ensures forall f | f in OfKind(Report(c), ReqUnreferenced) ::
              PrdIds(c) != {} && c.planExists
              && exists x | x in PrdIds(c) && x !in PlanIds(c) :: f == Unreferenced(c.planDir, x)
  {
    ReportOfKind(c, ReqUnreferenced);
    UnreferencedFindingsFollowIds(c.planDir, MissingIds(c));
    var fs := OfKind(Report(c), ReqUnreferenced);
    forall f | f in fs
      ensures PrdIds(c) != {} && c.planExists
              && exists x | x in PrdIds(c) && x !in PlanIds(c) :: f == Unreferenced(c.planDir, x)
    {
      var i :| 0 <= i < |fs| && fs[i] == f;
      assert MissingIds(c)[i] in MissingIds(c);
    }
  }

  /** Without `--strict` and with both directories missing, only fuzzy terms can fail the run. */
  lemma MissingDirsAloneDoNotFail(c: Config)
    requires !c.strict && !c.prdExists && !c.planExists
    ensures Report(c) == FuzzySection(c)
    ensures FuzzySection(c) == [] ==> ExitCode(Report(c)) == 0
  {
  }

  // ---------------------------------------------------------------------
  // Scenarios

  /** The identifiers reported missing are the set difference, listed in ascending order. */
  lemma SortedDifferenceExample()
    ensures SortedSet({"REQ-001", "REQ-002", "REQ-003"} - {"REQ-002"}) == ["REQ-001", "REQ-003"]
  {
    var r := ["REQ-001", "REQ-003"];
    assert Less(r[0], r[1]) by {
      assert r[0][..6] == r[1][..6];
      assert r[0][1..][1..][1..][1..][1..][1..] == "1" && r[1][1..][1..][1..][1..][1..][1..] == "3";
    }
    SortedSetIsTheAscendingListing({"REQ-001", "REQ-002", "REQ-003"} - {"REQ-002"}, r);
  }

  /**
   * A PRD listing REQ-001 and REQ-002 and one plan file that references
   * REQ-001 only, with no fuzzy terms to scan for among the root files.
   */
  function Scenario(): Config {
    Config([], "", false,
           "docs/prd", true, [Doc("docs/prd/a.md", "REQ-001 REQ-002")],
           "docs/plan", true, [Doc("docs/plan/p.md", "See REQ-001")])
  }

  lemma ScenarioIds()
    ensures PrdIds(Scenario()) == {"REQ-001", "REQ-002"}
    ensures PlanIds(Scenario()) == {"REQ-001"}
  {
    var c := Scenario();
    TwoIds();
    OneReference();
    assert c.prdDocs[..0] == [] && c.planDocs[..0] == [];
  }

  lemma ScenarioPlanIsTraced()
    ensures TraceSection(Scenario()) == []
  {
    var docs := Scenario().planDocs;
    IdReferenceIsTrace();
    assert docs[..0] == [];
  }

  lemma ScenarioQuietSections()
    ensures FuzzySection(Scenario()) == []
    ensures PrdDirSection(Scenario()) == [] && PlanDirSection(Scenario()) == []
    ensures NoIdsSection(Scenario()) == []
  {
    ScenarioIds();
  }

  lemma ScenarioUnreferenced()
    ensures UnreferencedSection(Scenario()) == [Unreferenced("docs/plan", "REQ-002")]
  {
    ScenarioIds();
    assert PrdIds(Scenario()) - PlanIds(Scenario()) == {"REQ-002"};
    SortedSetIsTheAscendingListing({"REQ-002"}, ["REQ-002"]);
    assert ["REQ-002"][..0] == [];
  }

  /** The run of the scenario reports REQ-002 as unreferenced and nothing else, and fails. */
  lemma UnreferencedIdScenario()
    ensures Report(Scenario()) == [Unreferenced("docs/plan", "REQ-002")]
    ensures ExitCode(Report(Scenario())) == 1
  {
    var c := Scenario();
    ScenarioPlanIsTraced();
    ScenarioQuietSections();
    ScenarioUnreferenced();
    OnlyLastSection(c);
  }

  lemma OnlyLastSection(c: Config)
    requires FuzzySection(c) == PrdDirSection(c) == PlanDirSection(c) == []
    requires NoIdsSection(c) == TraceSection(c) == []
    ensures Report(c) == UnreferencedSection(c)
  {
    var e: seq<Finding> := [];
    assert e + e + e + e + e + UnreferencedSection(c) == UnreferencedSection(c);
  }

  lemma TwoIds()
    ensures IdsIn("REQ-001 REQ-002") == {"REQ-001", "REQ-002"}
  {
    var s := "REQ-001 REQ-002";
    assert IdAt(s, 0) && s[0..7] == "REQ-001";
    assert IdAt(s, 8) && s[8..15] == "REQ-002";
    forall i: nat | i + 7 <= |s| && IdAt(s, i) ensures i == 0 || i == 8 {
      if 0 < i < 8 { NoOverlap(s, 0, i); }
    }
  }

  lemma OneReference()
    ensures IdsIn("See REQ-001") == {"REQ-001"}
  {
    var s := "See REQ-001";
    assert IdAt(s, 4) && s[4..11] == "REQ-001";
    forall i: nat | i + 7 <= |s| && IdAt(s, i) ensures i == 4 {
      assert s[i..i + 4][0] == s[i];
    }
  }

  // ---------------------------------------------------------------------
  // main

  /** The loop over the root's Markdown files, extending the findings with each file's. */
  method ScanFiles(docs: seq<Doc>, terms: seq<string>) returns (findings: seq<Finding>)
    ensures findings == DocsFindings(docs, terms)
  {
    findings := [];
    var i := 0;
    while i < |docs|
      invariant 0 <= i <= |docs|
      invariant findings == DocsFindings(docs[..i], terms)
    {
      var fs := FindFuzzyTermsInFile(docs[i], terms);
      findings := findings + fs;
      assert docs[..i + 1][..i] == docs[..i];
      i := i + 1;
    }
    assert docs[..i] == docs;
  }

  /** The loop over the plan files, one finding for each that fails the trace test. */
  method CheckTraces(docs: seq<Doc>) returns (findings: seq<Finding>)
    ensures findings == TraceFindings(docs)
  {
    findings := [];
    var k := 0;
    while k < |docs|
      invariant 0 <= k <= |docs|
      invariant findings == TraceFindings(docs[..k])
    {
      var d := docs[k];
      if !PlanHasPrdTrace(d.text) {
        findings := findings + [NoTrace(d.path)];
      }
      assert docs[..k + 1][..k] == docs[..k];
      k := k + 1;
    }
    assert docs[..k] == docs;
  }

  /** The loop over the sorted missing identifiers, one finding each. */
  method ReportMissing(planDir: string, missing: seq<string>) returns (findings: seq<Finding>)
    ensures findings == UnreferencedFindings(planDir, missing)
  {
    findings := [];
    var k := 0;
    while k < |missing|
      invariant 0 <= k <= |missing|
      invariant findings == UnreferencedFindings(planDir, missing[..k])
    {
      findings := findings + [Unreferenced(planDir, missing[k])];
      assert missing[..k + 1][..k] == missing[..k];
      k := k + 1;
    }
    assert missing[..k] == missing;
  }

  /** `main` after argument parsing: collects the findings in order and returns the exit code. */
  method Run(c: Config) returns (findings: seq<Finding>, code: int)
    ensures findings == Report(c)
    ensures code == ExitCode(findings)
  {
    ghost var s1, s2, s3 := FuzzySection(c), PrdDirSection(c), PlanDirSection(c);
    ghost var s4, s5, s6 := NoIdsSection(c), TraceSection(c), UnreferencedSection(c);

    var terms := FuzzyTerms(c.fuzzyTermsArg);
    findings := ScanFiles(c.rootDocs, terms);
    assert findings == s1;

    if !c.prdExists && c.strict {
      findings := findings + [PrdDirMissing(c.prdDir)];
    }
    assert findings == s1 + s2;
    if !c.planExists && c.strict {
      findings := findings + [PlanDirMissing(c.planDir)];
    }
    assert findings == s1 + s2 + s3;

    var prdIds: set<string> := {};
    var planIds: set<string> := {};
    if c.prdExists {
      prdIds := CollectReqIds(c.prdDocs);
      if prdIds == {} {
        findings := findings + [NoIds(c.prdDir)];
      }
    }
    assert prdIds == PrdIds(c);
    assert findings == s1 + s2 + s3 + s4;

    if c.planExists {
      planIds := CollectReqIds(c.planDocs);
      var flagged := CheckTraces(c.planDocs);
      findings := findings + flagged;
    }
    assert planIds == PlanIds(c);
    assert findings == s1 + s2 + s3 + s4 + s5;

    if prdIds != {} && c.planExists {
      var missing := SortedSet(prdIds - planIds);
      var unreferenced := ReportMissing(c.planDir, missing);
      findings := findings + unreferenced;
    }
    assert findings == s1 + s2 + s3 + s4 + s5 + s6;

    code := if findings != [] then 1 else 0;
  }
}
