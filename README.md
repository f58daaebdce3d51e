# Doc hygiene check: a verified model

This project models `scripts/doc_hygiene_check.py` of the tashan development
loop. The script checks that PRD (requirement) and plan documents stay in
line with each other. It does three things.

1. It scans every Markdown file under a root for discouraged vague phrases
   ("fuzzy terms"). These are a built-in list plus comma-separated extras
   given on the command line.
2. It collects the requirement identifiers (`REQ-` and three digits, as a
   whole word) from the PRD files and from the plan files.
3. It checks each plan file for a trace to the requirements: a "PRD Trace"
   heading, an identifier, or an explicit infrastructure or technical-debt
   note. It also reports every PRD identifier that no plan file mentions.

The result is a list of findings in a fixed order and an exit code: 1 if
there are findings, 0 if there are none.

The model works on values. The file system becomes a `DocHygiene.Config`:
the Markdown files found under the root, the PRD directory and the plan
directory (each as a path and a text), whether each directory exists, the
extra-terms argument and the `--strict` flag. Each part of the script has a
Dafny counterpart.

- The regular expressions become predicates on positions: word boundary,
  case-insensitive literal, greedy `\s*`, and a left-to-right search.
- The Python string operations become functions with their laws proved:
  `strip` (what is removed), `split` (inverse of `join`), `splitlines`
  (where each line ends, and that only the breaks are lost), `in` (an
  occurrence with a prefix and a suffix), and `sorted` on a set of strings
  (the unique ascending listing).
- The loops of the script become methods. Each is proved against a
  specification function: `CollectReqIds`, `FindFuzzyTermsInFile`, and
  `Run` for `main`. `Run` delegates its three inner loops to `ScanFiles`,
  `CheckTraces` and `ReportMissing`.
- What a run reports is characterised kind by kind by lemmas about
  `DocHygiene.Report`.

Modules, in dependency order:

- `Text` (`text.dfy`): character classes, `Strip`, `Split`/`Join`,
  `SplitLines`.
- `StringOrder` (`string_order.dfy`): Python's string order and `sorted`
  of a set.
- `Patterns` (`patterns.dfy`): the regular-expression pieces.
- `Findings` (`findings.dfy`): `Doc`, `Kind`, `Finding`, and filtering by
  kind.
- `ReqIds` (`req_ids.dfy`): `REQ_ID_RE`, `findall`, `_collect_req_ids`.
- `PlanTrace` (`plan_trace.dfy`): `_plan_has_prd_trace`.
- `Fuzzy` (`fuzzy.dfy`): the term list and `_find_fuzzy_terms_in_file`.
- `DocHygiene` (`hygiene.dfy`): `main`.

Points where the model follows the code over a looser reading of its
purpose:

- A plan document could be read as traced, exempt or deficient. The code
  only returns a boolean, so `PlanHasPrdTrace` is a predicate. The order
  of the four tests does not change its value, and `PlanHasPrdTraceIff`
  states it as a disjunction.
- Fuzzy-term scanning is a plain substring search, but it feeds `main`'s
  findings and exit code, so it is modelled.
- "PRD documents exist" means, in the code, that the PRD *directory*
  exists. An existing directory with no Markdown files yields `no-req-ids`
  (`NoIdsFindings`).

## Model

| member | source | states |
|---|---|---|
| `ReqIds.IdAtIff` | tashan-development-loop/scripts/doc_hygiene_check.py:26 | the pattern matches at `i` exactly when the seven characters there are `REQ-` and three digits, with no word character just before or just after |
| `ReqIds.NoOverlap` | tashan-development-loop/scripts/doc_hygiene_check.py:26 | no match can start inside another match |
| `Text.IsDigit` | tashan-development-loop/scripts/doc_hygiene_check.py:26 | definition of `\d` as the ASCII digits; used by `ReqIds.IdAtIff` |
| `Text.IsWordChar` | tashan-development-loop/scripts/doc_hygiene_check.py:26 | definition of `\w` as ASCII letters, digits, `_` and the CJK ideographs; characterised through `Patterns.IsBoundary` |
| `ReqIds.IdAt` | tashan-development-loop/scripts/doc_hygiene_check.py:26 | definition of a match of `\bREQ-\d{3}\b` at a position; characterised by `ReqIds.IdAtIff` |
| `ReqIds.FindAllFrom` | tashan-development-loop/scripts/doc_hygiene_check.py:86 | definition of `findall` from a position; characterised by `ReqIds.FindAllFromIff` |
| `ReqIds.FindAll` | tashan-development-loop/scripts/doc_hygiene_check.py:86 | definition of `REQ_ID_RE.findall(text)`; characterised by `ReqIds.FindAllIsIdsIn` |
| `ReqIds.FindAllFromIff` | tashan-development-loop/scripts/doc_hygiene_check.py:86 | a string is found by the scan from `i` exactly when the pattern matches it at some position from `i` on |
| `ReqIds.FindAllIsIdsIn` | tashan-development-loop/scripts/doc_hygiene_check.py:86 | the distinct strings `findall` returns (scanning left to right, resuming after each match) are exactly the texts at the positions where the pattern matches |
| `ReqIds.IdsIn` | tashan-development-loop/scripts/doc_hygiene_check.py:86 | definition of the set a file adds to `ids`; characterised by `ReqIds.FindAllIsIdsIn` and `ReqIds.IdsHaveIdShape` |
| `ReqIds.IdsInDocs` | tashan-development-loop/scripts/doc_hygiene_check.py:83-87 | definition of `_collect_req_ids` as a union over the files; characterised by `ReqIds.IdsInDocsIff` |
| `ReqIds.IdsHaveIdShape` | tashan-development-loop/scripts/doc_hygiene_check.py:26 | every extracted identifier has the identifier shape, and a text with an identifier contains `REQ-` |
| `ReqIds.ExactTokenMatches` | tashan-development-loop/scripts/doc_hygiene_check.py:26 | `REQ-001` alone yields exactly `{REQ-001}` |
| `ReqIds.FourDigitsDoNotMatch` | tashan-development-loop/scripts/doc_hygiene_check.py:26 | `REQ-0012` yields nothing (no boundary after three digits) |
| `ReqIds.WordBeforeDoesNotMatch` | tashan-development-loop/scripts/doc_hygiene_check.py:26 | `XREQ-001` yields nothing (no boundary before `R`) |
| `ReqIds.OneDigitDoesNotMatch` | tashan-development-loop/scripts/doc_hygiene_check.py:26 | `REQ-1` yields nothing |
| `ReqIds.LowerCaseDoesNotMatch` | tashan-development-loop/scripts/doc_hygiene_check.py:26 | `req-001` yields nothing: the identifier pattern is case-sensitive |
| `ReqIds.RepeatsCollapse` | tashan-development-loop/scripts/doc_hygiene_check.py:86 | `findall` on `REQ-001 REQ-001` returns both occurrences, and the set update keeps one |
| `ReqIds.IdsInDocsIff` | tashan-development-loop/scripts/doc_hygiene_check.py:83-87 | an identifier is collected exactly when some file contains it |
| `ReqIds.IdsInDocsOrderFree` | tashan-development-loop/scripts/doc_hygiene_check.py:83-87 | the collected set depends only on which files are listed, not on their order or repeats |
| `ReqIds.CollectReqIds` | tashan-development-loop/scripts/doc_hygiene_check.py:83-87 | the loop's set of identifiers is the union of the identifiers of all files |
| `Text.IsSpace` | tashan-development-loop/scripts/doc_hygiene_check.py:94 | definition of `\s` and of `str.isspace()` as Python's whitespace characters; used by `Text.Strip` and `Patterns.SkipSpaces` |
| `Patterns.IsBoundary` | tashan-development-loop/scripts/doc_hygiene_check.py:94 | definition of `\b`: a word character on exactly one side of the position; used by `ReqIds.IdAtIff` and `PlanTrace.PlanHasPrdTraceIff` |
| `Patterns.FoldOccursAt` | tashan-development-loop/scripts/doc_hygiene_check.py:94 | definition of a literal matched under `re.IGNORECASE`; characterised by `Patterns.ExactIsFolded` and `Text.SameFoldIff` |
| `Patterns.SearchFrom` | tashan-development-loop/scripts/doc_hygiene_check.py:94-98 | definition of `re.search` trying each start from left to right; characterised by `Patterns.SearchFromIff` |
| `Patterns.SkipSpaces` | tashan-development-loop/scripts/doc_hygiene_check.py:94 | greedy `\s*`: the end of the whitespace run, i.e. all whitespace before it and none at it |
| `Patterns.GreedySpacesSuffice` | tashan-development-loop/scripts/doc_hygiene_check.py:94 | when the second word starts with a letter, `first\s*second\b` matches with the greedy run exactly when it matches with some whitespace run (backtracking gains nothing) |
| `Patterns.SearchFromIff` | tashan-development-loop/scripts/doc_hygiene_check.py:98 | `re.search` succeeds exactly when the pattern matches at some position |
| `Patterns.ExactIsFolded` | tashan-development-loop/scripts/doc_hygiene_check.py:98 | an exact occurrence is also a case-insensitive one |
| `PlanTrace.PlanHasPrdTraceIff` | tashan-development-loop/scripts/doc_hygiene_check.py:90-102 | a plan passes exactly when the "PRD Trace" phrase (any whitespace between the words), `Req ID`, `REQ-`, an infra/debt word, or one of the two Chinese markers occurs |
| `PlanTrace.IdsImplyTrace` | tashan-development-loop/scripts/doc_hygiene_check.py:96 | a plan file with a requirement identifier always passes |
| `PlanTrace.FlaggedHasNoIds` | tashan-development-loop/scripts/doc_hygiene_check.py:177-190 | a plan file that is flagged contributes no identifier to the plan set |
| `PlanTrace.PlanHasPrdTrace` | tashan-development-loop/scripts/doc_hygiene_check.py:90-102 | definition: the four tests in the source's order; characterised by `PlanTrace.PlanHasPrdTraceIff` |
| `PlanTrace.PrdTraceAt` | tashan-development-loop/scripts/doc_hygiene_check.py:94 | definition of `\bPRD\s*Trace\b` (case ignored) matching at a position, with greedy `\s*`; characterised by `PlanTrace.PlanHasPrdTraceIff` |
| `PlanTrace.MentionsPrdTrace` | tashan-development-loop/scripts/doc_hygiene_check.py:94 | definition of the first `re.search`; characterised by `PlanTrace.PlanHasPrdTraceIff` |
| `PlanTrace.InfraDebtAt` | tashan-development-loop/scripts/doc_hygiene_check.py:98 | definition of `\b(infra|infrastructure|debt|tech\s*debt)\b` (case ignored) matching at a position; characterised by `PlanTrace.PlanHasPrdTraceIff` |
| `PlanTrace.MentionsInfraOrDebt` | tashan-development-loop/scripts/doc_hygiene_check.py:98 | definition of the second `re.search`; characterised by `PlanTrace.PlanHasPrdTraceIff` |
| `PlanTrace.InfraMarker` | tashan-development-loop/scripts/doc_hygiene_check.py:100 | the first Chinese marker, as in the source |
| `PlanTrace.DebtMarker` | tashan-development-loop/scripts/doc_hygiene_check.py:100 | the second Chinese marker, as in the source |
| `PlanTrace.IdReferenceIsTrace` | tashan-development-loop/scripts/doc_hygiene_check.py:96 | "See REQ-001" passes |
| `PlanTrace.InfrastructureNoteIsTrace` | tashan-development-loop/scripts/doc_hygiene_check.py:98 | "This is infrastructure cleanup, no direct requirement." passes |
| `PlanTrace.InfrastructureWordIsTrace` | tashan-development-loop/scripts/doc_hygiene_check.py:98 | `infrastructure` with a non-word character on each side makes the infra/debt search succeed, whatever text surrounds it |
| `PlanTrace.JoinedHeadingIsTrace` | tashan-development-loop/scripts/doc_hygiene_check.py:94 | "## prdtrace" passes: case is ignored and `\s*` allows no space |
| `PlanTrace.TechDebtWithoutSpaceIsTrace` | tashan-development-loop/scripts/doc_hygiene_check.py:98 | "TechDebt" passes through the `tech\s*debt` alternative |
| `PlanTrace.EmbeddedWordIsNoTrace` | tashan-development-loop/scripts/doc_hygiene_check.py:90-102 | "infrastructures" fails every one of the four tests: a keyword inside a longer word is no match |
| `PlanTrace.InfrastructuresFailsAtStart` | tashan-development-loop/scripts/doc_hygiene_check.py:98 | at the start of "infrastructures" both `infra` and `infrastructure` occur but the closing `\b` fails, and `debt` and `tech` do not occur |
| `Text.Lower` | tashan-development-loop/scripts/doc_hygiene_check.py:94 | case folding sends each capital ASCII letter to its lower-case letter (32 code points on) and leaves every other character, lower-case letters included, as it is |
| `Text.SameFoldIff` | tashan-development-loop/scripts/doc_hygiene_check.py:94-98 | with case ignored, a lower-case letter matches exactly itself and its capital |
| `Text.Contains` | tashan-development-loop/scripts/doc_hygiene_check.py:96-100 | definition of `sub in s` as an occurrence at some index; characterised by `Text.ContainsIff` |
| `Text.ContainsIff` | tashan-development-loop/scripts/doc_hygiene_check.py:96-100 | `sub in s` holds exactly when `s` is `sub` with a prefix and a suffix |
| `Text.Strip` | tashan-development-loop/scripts/doc_hygiene_check.py:136 | `str.strip()`: the result is empty exactly for all-whitespace input; otherwise it neither starts nor ends with whitespace and is the input less a whitespace prefix and suffix |
| `Text.Split` | tashan-development-loop/scripts/doc_hygiene_check.py:137 | `str.split(",")`: at least one part, no part contains the separator, every character of a part comes from the input |
| `Text.JoinSplit` | tashan-development-loop/scripts/doc_hygiene_check.py:137 | joining the parts with the separator gives back the input |
| `Text.SplitJoin` | tashan-development-loop/scripts/doc_hygiene_check.py:137 | splitting a join of separator-free parts gives back the parts |
| `Text.IsLineBreak` | tashan-development-loop/scripts/doc_hygiene_check.py:68 | definition of the characters at which `str.splitlines()` breaks; used by `Text.SplitLines` and its lemmas |
| `Text.SplitLines` | tashan-development-loop/scripts/doc_hygiene_check.py:68 | `str.splitlines()`: no line contains a line break, and there are no lines exactly for empty input |
| `Text.SplitLinesCover` | tashan-development-loop/scripts/doc_hygiene_check.py:68 | the lines put back together are the input without its line-break characters |
| `Text.SplitLinesAtBreak` | tashan-development-loop/scripts/doc_hygiene_check.py:68 | a line ends at its first break: a break-free head, one break (`\r\n` counts as one, a `\r` before `\n` is not a break of its own), then the rest split in turn |
| `Text.SplitLinesOfPlain` | tashan-development-loop/scripts/doc_hygiene_check.py:68 | a non-empty text without breaks is one line |
| `StringOrder.Less` | tashan-development-loop/scripts/doc_hygiene_check.py:193 | definition of Python's string `<` (code-point lexicographic); characterised by `StringOrder.LessIrreflexive`, `LessTransitive` and `LessTotal` |
| `StringOrder.LessIrreflexive` | tashan-development-loop/scripts/doc_hygiene_check.py:193 | Python's string order is irreflexive |
| `StringOrder.LessTransitive` | tashan-development-loop/scripts/doc_hygiene_check.py:193 | the string order is transitive |
| `StringOrder.LessTotal` | tashan-development-loop/scripts/doc_hygiene_check.py:193 | any two different strings are ordered one way or the other |
| `StringOrder.Minimum` | tashan-development-loop/scripts/doc_hygiene_check.py:193 | the least element of a non-empty set |
| `StringOrder.SortedSet` | tashan-development-loop/scripts/doc_hygiene_check.py:193 | `sorted` of a set: strictly ascending, same elements, same size |
| `StringOrder.SortedUnique` | tashan-development-loop/scripts/doc_hygiene_check.py:193 | two strictly ascending lists with the same elements are equal |
| `StringOrder.SortedSetIsTheAscendingListing` | tashan-development-loop/scripts/doc_hygiene_check.py:193 | any strictly ascending listing of a set is `sorted` of it |
| `Findings.KindNamesDistinct` | tashan-development-loop/scripts/doc_hygiene_check.py:74 | the six printed kind names tell the kinds apart |
| `Findings.Kind` | tashan-development-loop/scripts/doc_hygiene_check.py:47 | definition: the six values of the `kind` field, printed under the names the script uses; characterised by `Findings.KindNamesDistinct` |
| `Findings.Finding` | tashan-development-loop/scripts/doc_hygiene_check.py:45-50 | definition of the frozen `Finding` record: kind, path, line number, message |
| `Findings.KindName` | tashan-development-loop/scripts/doc_hygiene_check.py:74 | definition of the printed kind strings (also at lines 150, 157, 170, 185, 197); characterised by `Findings.KindNamesDistinct` |
| `Findings.Doc` | tashan-development-loop/scripts/doc_hygiene_check.py:62-63 | definition of a file as its path and its decoded text, what `_read_text` returns for a path |
| `Findings.OfKindIff` | tashan-development-loop/scripts/doc_hygiene_check.py:47 | a finding is in the kind filter exactly when it is in the list and has that kind |
| `Findings.OnLine` | tashan-development-loop/scripts/doc_hygiene_check.py:49 | definition of the findings on one line number, in order; used by `Fuzzy.LinesFindingsByLine` |
| `Fuzzy.DefaultFuzzyTerms` | tashan-development-loop/scripts/doc_hygiene_check.py:29-42 | the ten default terms, in the source's order |
| `Fuzzy.StrippedNonEmptyIff` | tashan-development-loop/scripts/doc_hygiene_check.py:137 | a term is kept exactly when it is a non-blank part, stripped |
| `Fuzzy.StrippedNonEmptyOfBlanks` | tashan-development-loop/scripts/doc_hygiene_check.py:137 | blank parts yield no terms |
| `Fuzzy.StrippedNonEmpty` | tashan-development-loop/scripts/doc_hygiene_check.py:137 | definition of the list comprehension `[t.strip() for t in parts if t.strip()]`; characterised by `Fuzzy.StrippedNonEmptyIff` |
| `Fuzzy.StrippedNonEmptyAppend` | tashan-development-loop/scripts/doc_hygiene_check.py:137 | the comprehension over `a + b` keeps the terms of `a`, then those of `b` |
| `Fuzzy.KeptPositions` | tashan-development-loop/scripts/doc_hygiene_check.py:137 | the positions of the non-blank parts: strictly ascending, and a position is listed exactly when its part is not all whitespace |
| `Fuzzy.StrippedNonEmptyFollowsParts` | tashan-development-loop/scripts/doc_hygiene_check.py:137 | one term per non-blank part, in part order, repeats kept: the `i`-th term is the `i`-th non-blank part, stripped |
| `Fuzzy.ExtraTerms` | tashan-development-loop/scripts/doc_hygiene_check.py:136-137 | definition of the extras, guarded by `strip()` of the argument; characterised by `Fuzzy.ExtraTermsIff` and `Fuzzy.ExtraTermsShape` |
| `Fuzzy.FuzzyTerms` | tashan-development-loop/scripts/doc_hygiene_check.py:135-137 | definition: the default terms followed by the extras; characterised by `Fuzzy.ExtraTermsIff` and `Fuzzy.ExtraTermsExample` |
| `Fuzzy.BlankArgumentHasNoTerms` | tashan-development-loop/scripts/doc_hygiene_check.py:136 | every part of a blank argument is blank |
| `Fuzzy.StripKeepsChars` | tashan-development-loop/scripts/doc_hygiene_check.py:137 | stripping only removes characters |
| `Fuzzy.ExtraTermsIgnoreGuard` | tashan-development-loop/scripts/doc_hygiene_check.py:136-137 | the blank-argument guard changes nothing: the extras are always the stripped non-blank parts |
| `Fuzzy.ExtraTermsIff` | tashan-development-loop/scripts/doc_hygiene_check.py:137 | a string is an extra term exactly when it is a non-blank comma-separated part of the argument, stripped |
| `Fuzzy.ExtraTermsFollowParts` | tashan-development-loop/scripts/doc_hygiene_check.py:135-137 | the extras are the non-blank comma-separated parts of the argument, stripped, one each, in argument order, repeats kept |
| `Fuzzy.RepeatedExtraTermsKept` | tashan-development-loop/scripts/doc_hygiene_check.py:137 | `--fuzzy-terms "a,a"` adds `a` twice |
| `Fuzzy.ExtraTermsShape` | tashan-development-loop/scripts/doc_hygiene_check.py:137 | each extra term is non-empty, comma-free and has no surrounding whitespace |
| `Fuzzy.SplitExample` | tashan-development-loop/scripts/doc_hygiene_check.py:137 | `" TBD , ,later"` splits into three parts |
| `Fuzzy.StrippedExample` | tashan-development-loop/scripts/doc_hygiene_check.py:137 | those parts strip to `TBD` and `later`; the blank one is dropped |
| `Fuzzy.ExtraTermsExample` | tashan-development-loop/scripts/doc_hygiene_check.py:135-137 | `--fuzzy-terms " TBD , ,later"` adds exactly `TBD` and `later`, in that order |
| `Fuzzy.Hits` | tashan-development-loop/scripts/doc_hygiene_check.py:71 | definition of `term and term in line` |
| `Fuzzy.TermFinding` | tashan-development-loop/scripts/doc_hygiene_check.py:72-78 | definition of the fuzzy-term finding: the path, the line number and `Found fuzzy term: ` with the term |
| `Fuzzy.LineFindingsFollowTerms` | tashan-development-loop/scripts/doc_hygiene_check.py:70-79 | a line yields exactly one finding per position of a non-empty term that occurs in it, in term-list order |
| `Fuzzy.LineFindingsIff` | tashan-development-loop/scripts/doc_hygiene_check.py:70-79 | a line's findings are exactly those of the non-empty terms it contains |
| `Fuzzy.LineFindings` | tashan-development-loop/scripts/doc_hygiene_check.py:70-79 | definition of one line's findings; characterised by `Fuzzy.LineFindingsFollowTerms` and `Fuzzy.LineFindingsIff` |
| `Fuzzy.LinesFindings` | tashan-development-loop/scripts/doc_hygiene_check.py:68-79 | definition of a file's findings line by line; characterised by `Fuzzy.LinesFindingsIff` and `Fuzzy.LinesFindingsOrdered` |
| `Fuzzy.DocsFindings` | tashan-development-loop/scripts/doc_hygiene_check.py:140-141 | definition of the scan over the root's files; characterised by `Fuzzy.FileFindingsInDocsFindings` and `Fuzzy.DocsFindingsFromFiles` |
| `Fuzzy.FileFindings` | tashan-development-loop/scripts/doc_hygiene_check.py:66-80 | definition of `_find_fuzzy_terms_in_file` on a loaded file; characterised by `Fuzzy.LinesFindingsIff`, `LinesFindingsByLine` and `LinesFindingsOrdered` |
| `Fuzzy.HitInLinesFindings` | tashan-development-loop/scripts/doc_hygiene_check.py:69-79 | the finding for a term on the line that contains it is reported, with that 1-based line number |
| `Fuzzy.LinesFindingsAreHits` | tashan-development-loop/scripts/doc_hygiene_check.py:69-79 | every reported finding names a term that occurs on the line it gives |
| `Fuzzy.LinesFindingsIff` | tashan-development-loop/scripts/doc_hygiene_check.py:66-80 | a file's findings are exactly the (line, term) hits |
| `Fuzzy.LinesFindingsOrdered` | tashan-development-loop/scripts/doc_hygiene_check.py:69-79 | a file's findings are fuzzy-term findings for its path, with line numbers between 1 and the line count, in ascending line order |
| `Fuzzy.LinesFindingsByLine` | tashan-development-loop/scripts/doc_hygiene_check.py:69-79 | a file's findings on line `k + 1` are exactly that line's findings in term order, and none has a number outside the lines; with the ordering lemma this fixes the list |
| `Fuzzy.DocsFindingsAreFuzzy` | tashan-development-loop/scripts/doc_hygiene_check.py:140-141 | the scan produces only fuzzy-term findings |
| `Fuzzy.FileFindingsInDocsFindings` | tashan-development-loop/scripts/doc_hygiene_check.py:140-141 | every finding of a scanned file is one of the scan's |
| `Fuzzy.DocsFindingsFromFiles` | tashan-development-loop/scripts/doc_hygiene_check.py:140-141 | every finding of the scan comes from one of the scanned files |
| `Fuzzy.FindFuzzyTermsInFile` | tashan-development-loop/scripts/doc_hygiene_check.py:66-80 | the nested loop over lines and terms produces the file's findings |
| `DocHygiene.Config` | tashan-development-loop/scripts/doc_hygiene_check.py:128-145 | definition of what `main` gets from its arguments and the file system: the root's files, the terms argument, `--strict`, and each directory's path, existence and files |
| `DocHygiene.PrdIds` | tashan-development-loop/scripts/doc_hygiene_check.py:161-166 | definition of `prd_ids`: the PRD files' identifiers when the directory exists, else none; characterised by `ReqIds.IdsInDocsIff` |
| `DocHygiene.PlanIds` | tashan-development-loop/scripts/doc_hygiene_check.py:162-179 | definition of `plan_ids`: the plan files' identifiers when the directory exists, else none; characterised by `ReqIds.IdsInDocsIff` |
| `DocHygiene.FuzzySection` | tashan-development-loop/scripts/doc_hygiene_check.py:139-141 | definition of the fuzzy findings; characterised by `DocHygiene.FuzzyFindingsIff` |
| `DocHygiene.PrdDirSection` | tashan-development-loop/scripts/doc_hygiene_check.py:147-152 | definition of the missing-PRD-directory finding under `--strict`; characterised by `DocHygiene.MissingDirFindings` |
| `DocHygiene.PlanDirSection` | tashan-development-loop/scripts/doc_hygiene_check.py:154-159 | definition of the missing-plan-directory finding under `--strict`; characterised by `DocHygiene.MissingDirFindings` |
| `DocHygiene.NoIdsSection` | tashan-development-loop/scripts/doc_hygiene_check.py:164-175 | definition of the no-req-ids finding; characterised by `DocHygiene.NoIdsFindings` |
| `DocHygiene.TraceSection` | tashan-development-loop/scripts/doc_hygiene_check.py:177-190 | definition of the trace findings; characterised by `DocHygiene.TraceFindingsInReport` and `TraceFindingsOrderInReport` |
| `DocHygiene.UnreferencedSection` | tashan-development-loop/scripts/doc_hygiene_check.py:192-202 | definition of the unreferenced-identifier findings; characterised by `DocHygiene.UnreferencedFindingsInReport` |
| `DocHygiene.ExitCode` | tashan-development-loop/scripts/doc_hygiene_check.py:205-210 | the exit code is 0 or 1, and 1 exactly when there are findings |
| `DocHygiene.PrdDirMissing` | tashan-development-loop/scripts/doc_hygiene_check.py:147-150 | definition of the missing-prd-dir finding: the directory, line 1, `PRD dir missing: ` and the path |
| `DocHygiene.PlanDirMissing` | tashan-development-loop/scripts/doc_hygiene_check.py:154-157 | definition of the missing-plan-dir finding: the directory, line 1, `Plan dir missing: ` and the path |
| `DocHygiene.NoIds` | tashan-development-loop/scripts/doc_hygiene_check.py:168-174 | definition of the no-req-ids finding for the PRD directory with the script's message |
| `DocHygiene.NoTrace` | tashan-development-loop/scripts/doc_hygiene_check.py:183-189 | definition of the missing-prd-trace finding for a plan file with the script's message |
| `DocHygiene.Unreferenced` | tashan-development-loop/scripts/doc_hygiene_check.py:195-201 | definition of the req-unreferenced finding for the plan directory, naming the identifier |
| `DocHygiene.Report` | tashan-development-loop/scripts/doc_hygiene_check.py:132-202 | definition: the six sections in the order `main` appends them; characterised by `DocHygiene.ReportOfKind` and the section lemmas |
| `DocHygiene.TraceFindings` | tashan-development-loop/scripts/doc_hygiene_check.py:180-190 | definition of the plan loop's findings; characterised by `DocHygiene.TraceFindingsIff` and `DocHygiene.TraceFindingsFollowFlagged` |
| `DocHygiene.UnreferencedFindings` | tashan-development-loop/scripts/doc_hygiene_check.py:194-202 | definition of the identifier loop's findings; characterised by `DocHygiene.UnreferencedFindingsFollowIds` |
| `DocHygiene.MissingIds` | tashan-development-loop/scripts/doc_hygiene_check.py:193 | definition of `sorted(prd_ids - plan_ids)`; characterised by `DocHygiene.MissingIdsAreTheDifference` |
| `DocHygiene.TraceFindingsAreTraceKind` | tashan-development-loop/scripts/doc_hygiene_check.py:180-190 | the plan loop adds only missing-prd-trace findings |
| `DocHygiene.TraceFindingsIff` | tashan-development-loop/scripts/doc_hygiene_check.py:180-190 | a trace finding is produced exactly for a plan file that fails the test, with that file's path |
| `DocHygiene.FlaggedPositions` | tashan-development-loop/scripts/doc_hygiene_check.py:180-182 | the positions of the failing plan files: strictly ascending, and a position is listed exactly when its file fails the test |
| `DocHygiene.TraceFindingsFollowFlagged` | tashan-development-loop/scripts/doc_hygiene_check.py:180-190 | one trace finding per failing plan file, in plan-file order: the `i`-th finding names the `i`-th failing file |
| `DocHygiene.ReferencedIdsComeFromTracedDocs` | tashan-development-loop/scripts/doc_hygiene_check.py:177-190 | every identifier the plan set holds comes from a plan file that passes the trace test |
| `DocHygiene.UnreferencedFindingsFollowIds` | tashan-development-loop/scripts/doc_hygiene_check.py:194-202 | one unreferenced finding per identifier, in the same order |
| `DocHygiene.UnreferencedFindingsAreUnreferencedKind` | tashan-development-loop/scripts/doc_hygiene_check.py:194-202 | that loop adds only req-unreferenced findings |
| `DocHygiene.MissingIdsAreTheDifference` | tashan-development-loop/scripts/doc_hygiene_check.py:193 | the missing identifiers are ascending and exactly the PRD identifiers no plan file holds |
| `DocHygiene.ReportOfKind` | tashan-development-loop/scripts/doc_hygiene_check.py:132-202 | the findings of each kind are exactly the section of `main` that produces that kind |
| `DocHygiene.ReportIsGroupedByKind` | tashan-development-loop/scripts/doc_hygiene_check.py:132-202 | the report is grouped by kind in the order fuzzy-term, missing-prd-dir, missing-plan-dir, no-req-ids, missing-prd-trace, req-unreferenced |
| `DocHygiene.FuzzyFindingsIff` | tashan-development-loop/scripts/doc_hygiene_check.py:139-141 | a fuzzy finding is reported exactly when it is a finding of one of the root's files |
| `DocHygiene.MissingDirFindings` | tashan-development-loop/scripts/doc_hygiene_check.py:147-159 | one missing-directory finding per missing directory, with its path and line 1, and only under `--strict` |
| `DocHygiene.NoIdsFindings` | tashan-development-loop/scripts/doc_hygiene_check.py:164-175 | `no-req-ids` appears once exactly when the PRD directory exists and its files hold no identifier, and then no identifier is reported unreferenced |
| `DocHygiene.TraceFindingsInReport` | tashan-development-loop/scripts/doc_hygiene_check.py:177-190 | a trace finding appears exactly when the plan directory exists and some plan file fails the test, naming that file; such a file holds no identifier |
| `DocHygiene.TraceFindingsOrderInReport` | tashan-development-loop/scripts/doc_hygiene_check.py:177-190 | the report's trace findings: none without a plan directory, else exactly one per failing plan file, in the order of the plan files |
| `DocHygiene.UnreferencedFindingsInReport` | tashan-development-loop/scripts/doc_hygiene_check.py:192-202 | when the PRD has identifiers and the plan directory exists, there is one finding per PRD identifier missing from the plans, in ascending order; otherwise there are none |
| `DocHygiene.MissingDirsAloneDoNotFail` | tashan-development-loop/scripts/doc_hygiene_check.py:147-159 | without `--strict` and with both directories missing, only fuzzy terms can fail the run |
| `DocHygiene.SortedDifferenceExample` | tashan-development-loop/scripts/doc_hygiene_check.py:193 | `sorted({REQ-001, REQ-002, REQ-003} - {REQ-002})` is `[REQ-001, REQ-003]` |
| `DocHygiene.ScenarioIds` | tashan-development-loop/scripts/doc_hygiene_check.py:161-179 | in the scenario, the PRD set is `{REQ-001, REQ-002}` and the plan set is `{REQ-001}` |
| `DocHygiene.ScenarioPlanIsTraced` | tashan-development-loop/scripts/doc_hygiene_check.py:180-190 | the scenario's plan file "See REQ-001" is not flagged |
| `DocHygiene.ScenarioQuietSections` | tashan-development-loop/scripts/doc_hygiene_check.py:140-175 | the scenario has no fuzzy, missing-directory or no-req-ids findings |
| `DocHygiene.ScenarioUnreferenced` | tashan-development-loop/scripts/doc_hygiene_check.py:192-202 | the scenario reports REQ-002 as unreferenced |
| `DocHygiene.UnreferencedIdScenario` | tashan-development-loop/scripts/doc_hygiene_check.py:192-210 | PRD "REQ-001 REQ-002" with plan "See REQ-001": the only finding is REQ-002 unreferenced, and the exit code is 1 |
| `DocHygiene.ScanFiles` | tashan-development-loop/scripts/doc_hygiene_check.py:139-141 | the loop over the root's files appends every file's findings in file order |
| `DocHygiene.CheckTraces` | tashan-development-loop/scripts/doc_hygiene_check.py:180-190 | the loop over the plan files produces their trace findings |
| `DocHygiene.ReportMissing` | tashan-development-loop/scripts/doc_hygiene_check.py:194-202 | the loop over the missing identifiers produces one finding each |
| `DocHygiene.Run` | tashan-development-loop/scripts/doc_hygiene_check.py:132-210 | `main` from the findings list to the return value: its findings are the report, and its exit code is 1 exactly when there are findings |

## Left out

- File-system access is not modelled: `_iter_md_files` (directory walk,
  `.md` suffix test, sorting of paths), `_read_text` (UTF-8 decoding with
  replacement), `Path.resolve` and the exists/is-directory tests. Their
  results are inputs in `DocHygiene.Config`.
- Argument parsing with `argparse` is not modelled. Its defaults (`.`,
  `docs/prd`, `docs/plan`, `""`, not strict) are just one possible
  `Config`.
- `_print_findings` is not modelled, and neither is anything else the
  script prints: the finding lines, the "OK" line, and the `[warn]` lines
  for missing directories without `--strict`. The model shows that those
  cases add no finding.
- The exit status 2 (the top-level exception handler and
  `KeyboardInterrupt`) is not modelled. The model does not raise.
- Unicode character classes are approximated:
  - `\d` is the ASCII digits only. Python also accepts other Unicode
    decimal digits.
  - `\w` is ASCII letters, digits and `_`, plus the CJK ideograph blocks
    U+3400–U+4DBF and U+4E00–U+9FFF. Python's `\w` covers every Unicode
    letter and digit.
  - `re.IGNORECASE` folds ASCII letters only, which covers every literal
    in the patterns. Text with non-ASCII letters that Unicode case-folds
    onto ASCII letters (such as the Kelvin sign) may differ.
- `Text.SplitLines` implements `str.splitlines`; paths are plain strings.
  `Finding.path` holds the path text rather than a `Path` object.
- Fuzzy findings do not record the term's position in the list, only the
  term. A term listed twice (a default repeated in `--fuzzy-terms`) yields
  two equal findings for a line, as in the script.
