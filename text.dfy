/**
 * Character classes and the few `str` operations of Python that the
 * documentation checker relies on: `strip()`, `split(",")`, `splitlines()`
 * and the `in` substring test. Strings are sequences of Unicode scalar values.
 */
module Text {

  /** ASCII decimal digit; the model's reading of the regex class `\d`. */
  predicate IsDigit(c: char) {
    '0' <= c <= '9'
  }

  predicate IsAsciiLetter(c: char) {
    'a' <= c <= 'z' || 'A' <= c <= 'Z'
  }

  /**
   * The model's reading of the regex class `\w`: ASCII letters and digits,
   * the underscore, and the CJK Unified Ideographs (with Extension A), so
   * that Chinese text next to an identifier counts as a word.
   */
  predicate IsWordChar(c: char) {
    IsAsciiLetter(c) || IsDigit(c) || c == '_'
    || '\U{3400}' <= c <= '\U{4DBF}' || '\U{4E00}' <= c <= '\U{9FFF}'
  }

  /** The characters for which Python's `str.isspace()` holds (also `\s`). */
  predicate IsSpace(c: char) {
    '\t' <= c <= '\r' || '\U{1C}' <= c <= '\U{1F}' || c == ' '
    || c == '\U{85}' || c == '\U{A0}' || c == '\U{1680}'
    || '\U{2000}' <= c <= '\U{200A}' || c == '\U{2028}' || c == '\U{2029}'
    || c == '\U{202F}' || c == '\U{205F}' || c == '\U{3000}'
  }

  /** The characters at which Python's `str.splitlines()` breaks a line. */
  predicate IsLineBreak(c: char) {
    '\n' <= c <= '\r' || '\U{1C}' <= c <= '\U{1E}' || c == '\U{85}'
    || c == '\U{2028}' || c == '\U{2029}'
  }

  /** ASCII lower-casing: the case folding applied under `re.IGNORECASE`. */
  function Lower(c: char): (l: char)
    ensures IsAsciiLetter(c) ==> 'a' <= l <= 'z'
    ensures 'A' <= c <= 'Z' ==> l as int == c as int + ('a' as int - 'A' as int)
    ensures !('A' <= c <= 'Z') ==> l == c
  {
    if 'A' <= c <= 'Z' then (c as int + 32) as char else c
  }

  /**
   * With case ignored, a lower-case letter `d` matches exactly `d` itself
   * and its capital: `P` and `p` fold together, `P` and `q` do not.
   */
  lemma SameFoldIff(c: char, d: char)
    requires 'a' <= d <= 'z'
    ensures Lower(c) == d <==> c == d || c as int == d as int - ('a' as int - 'A' as int)
  {
  }

  lemma FoldedLetterIsNoSpace(c: char, letter: char)
    requires IsAsciiLetter(letter) && Lower(c) == Lower(letter)
    ensures IsAsciiLetter(c) && !IsSpace(c)
  {
  }

  /** `sub` occurs in `s` starting at index `i`. */
  predicate OccursAt(s: string, i: int, sub: string) {
    0 <= i && i + |sub| <= |s| && s[i..i + |sub|] == sub
  }

  /** Python's `sub in s`. */
  predicate Contains(s: string, sub: string) {
    exists i | 0 <= i <= |s| :: OccursAt(s, i, sub)
  }

  /** `sub in s` holds exactly when `s` is `sub` with something before and after it. */
  lemma ContainsIff(s: string, sub: string)
    ensures Contains(s, sub) <==> exists a, b :: s == a + sub + b
  {
    if Contains(s, sub) {
      var i :| 0 <= i <= |s| && OccursAt(s, i, sub);
      assert s == s[..i] + sub + s[i + |sub|..];
    }
    if exists a, b :: s == a + sub + b {
      var a, b :| s == a + sub + b;
      assert s[|a|..|a| + |sub|] == sub;
      assert OccursAt(s, |a|, sub);
    }
  }

  predicate AllSpaces(s: string) {
    forall k | 0 <= k < |s| :: IsSpace(s[k])
  }

  // ---------------------------------------------------------------------
  // strip()

  /** The number of whitespace characters that `s` starts with. */
  function LeadingSpaces(s: string): (n: nat)
    ensures n <= |s|
    ensures forall k | 0 <= k < n :: IsSpace(s[k])
    ensures n < |s| ==> !IsSpace(s[n])
  {
    if s != [] && IsSpace(s[0]) then 1 + LeadingSpaces(s[1..]) else 0
  }

  /** The number of whitespace characters that `s` ends with. */
  function TrailingSpaces(s: string): (n: nat)
    ensures n <= |s|
    ensures forall k | |s| - n <= k < |s| :: IsSpace(s[k])
    ensures n < |s| ==> !IsSpace(s[|s| - n - 1])
  {
    if s != [] && IsSpace(s[|s| - 1]) then 1 + TrailingSpaces(s[..|s| - 1]) else 0
  }

  /**
   * Python's `s.strip()`: the slice of `s` left after removing all leading
   * and all trailing whitespace; it neither starts nor ends with whitespace.
   */
  function Strip(s: string): (r: string)
    ensures r == [] || (!IsSpace(r[0]) && !IsSpace(r[|r| - 1]))
    ensures r == [] <==> AllSpaces(s)
    ensures exists a :: TrimmedAt(s, a, r)
  {
    var a := LeadingSpaces(s);
    var t := s[a..];
    var b := TrailingSpaces(t);
    var r := t[..|t| - b];
    assert r == s[a..a + |r|];
    assert forall k | a + |r| <= k < |s| :: s[k] == t[k - a];
    assert TrimmedAt(s, a, r);
    r
  }

  /** `r` is `s` with `a` whitespace characters removed in front and only whitespace behind. */
  ghost predicate TrimmedAt(s: string, a: int, r: string) {
    && 0 <= a <= |s| - |r|
    && r == s[a..a + |r|]
    && (forall k | 0 <= k < a :: IsSpace(s[k]))
    && (forall k | a + |r| <= k < |s| :: IsSpace(s[k]))
  }

  // ---------------------------------------------------------------------
  // split(sep) and its inverse

  /** Python's `s.split(sep)` for a one-character separator. */
  function Split(s: string, sep: char): (parts: seq<string>)
    ensures |parts| >= 1
    ensures forall p | p in parts :: sep !in p
    ensures forall p, c | p in parts && c in p :: c in s
  {
    if s == [] then [[]]
    else
      var rest := Split(s[1..], sep);
      if s[0] == sep then [[]] + rest else [[s[0]] + rest[0]] + rest[1..]
  }

  /** Python's `sep.join(parts)` for a one-character separator. */
  function Join(parts: seq<string>, sep: char): string {
    if |parts| == 0 then []
    else if |parts| == 1 then parts[0]
    else parts[0] + [sep] + Join(parts[1..], sep)
  }

  /** Splitting and joining again gives back the original string. */
  lemma {:induction false} JoinSplit(s: string, sep: char)
    ensures Join(Split(s, sep), sep) == s
  {
    if s != [] {
      var rest := Split(s[1..], sep);
      JoinSplit(s[1..], sep);
      if s[0] == sep {
        assert Split(s, sep) == [[]] + rest;
      } else if |rest| == 1 {
        assert Split(s, sep) == [[s[0]] + rest[0]];
      } else {
        assert Split(s, sep)[1..] == rest[1..];
        assert Join(rest, sep) == rest[0] + [sep] + Join(rest[1..], sep);
      }
    }
  }

  /** Joining separator-free parts and splitting again gives back the parts. */
  lemma {:induction false} SplitJoin(parts: seq<string>, sep: char)
    requires |parts| >= 1
    requires forall p | p in parts :: sep !in p
    ensures Split(Join(parts, sep), sep) == parts
  {
    if |parts| > 1 {
      SplitJoin(parts[1..], sep);
      SplitWithPrefix(parts[0], Join(parts[1..], sep), sep);
      assert parts == [parts[0]] + parts[1..];
    } else {
      SplitWithPrefix(parts[0], [], sep);
    }
  }

  /** Splitting `p + [sep] + rest` (or just `p`) where `p` holds no separator. */
  lemma {:induction false} SplitWithPrefix(p: string, rest: string, sep: char)
    requires sep !in p
    ensures Split(p + [sep] + rest, sep) == [p] + Split(rest, sep)
    ensures rest == [] ==> Split(p, sep) == [p]
  {
    if p == [] {
      assert [sep] + rest == [sep] + rest;
      assert ([sep] + rest)[1..] == rest;
    } else {
      SplitWithPrefix(p[1..], rest, sep);
      assert (p + [sep] + rest)[1..] == p[1..] + [sep] + rest;
      assert [p[0]] + p[1..] == p;
      if rest == [] {
        assert p[1..] + [] == p[1..];
      }
    }
  }

  // ---------------------------------------------------------------------
  // splitlines()

  /** The index of the first line break in `s`, or `|s|` when there is none. */
  function FirstBreak(s: string): (k: nat)
    ensures k <= |s|
    ensures forall j | 0 <= j < k :: !IsLineBreak(s[j])
    ensures k < |s| ==> IsLineBreak(s[k])
  {
    if s == [] || IsLineBreak(s[0]) then 0 else 1 + FirstBreak(s[1..])
  }

  /** `\r\n` is one break of width two; every other break has width one. */
  function BreakWidth(s: string, k: nat): (w: nat)
    requires k < |s|
    ensures 1 <= w <= |s| - k
    ensures w == 2 <==> (s[k] == '\r' && k + 1 < |s| && s[k + 1] == '\n')
  {
    if s[k] == '\r' && k + 1 < |s| && s[k + 1] == '\n' then 2 else 1
  }

  /**
   * Python's `s.splitlines()`: the pieces between line breaks, with no empty
   * piece after a final break and none at all for the empty string.
   */
  function SplitLines(s: string): (lines: seq<string>)
    ensures forall l, k | l in lines && 0 <= k < |l| :: !IsLineBreak(l[k])
    ensures s == [] <==> lines == []
    decreases |s|
  {
    if s == [] then []
    else
      var k := FirstBreak(s);
      if k == |s| then [s]
      else [s[..k]] + SplitLines(s[k + BreakWidth(s, k)..])
  }

  /** `s` has no line-break character. */
  predicate NoBreaks(s: string) {
    forall j | 0 <= j < |s| :: !IsLineBreak(s[j])
  }

  /** `brk` is one line break as `splitlines()` reads it: `\r\n` or a single break character. */
  predicate IsOneBreak(brk: string) {
    brk == "\r\n" || (|brk| == 1 && IsLineBreak(brk[0]))
  }

  /** A line without breaks is found where a break follows it. */
  lemma FirstBreakAfterPlain(head: string, tail: string)
    requires NoBreaks(head) && tail != [] && IsLineBreak(tail[0])
    ensures FirstBreak(head + tail) == |head|
  {
    var s := head + tail;
    var k := FirstBreak(s);
    assert s[|head|] == tail[0];
  }

  /**
   * `splitlines()` ends a line at its first break and goes on after it: a
   * break-free `head`, one break, then `rest` split in turn. A lone `\r`
   * followed by `\n` is not one break but the first half of `\r\n`.
   */
  lemma SplitLinesAtBreak(head: string, brk: string, rest: string)
    requires NoBreaks(head) && IsOneBreak(brk)
    requires !(brk == "\r" && rest != [] && rest[0] == '\n')
    ensures SplitLines(head + brk + rest) == [head] + SplitLines(rest)
  {
    var s := head + brk + rest;
    assert s == head + (brk + rest);
    assert (brk + rest)[0] == brk[0];
    FirstBreakAfterPlain(head, brk + rest);
    var k := |head|;
    assert s[k] == brk[0];
    if brk == "\r\n" {
      assert s[k + 1] == '\n';
    } else if brk == "\r" && k + 1 < |s| {
      assert s[k + 1] == rest[0];
    }
    var w := BreakWidth(s, k);
    assert w == |brk|;
    assert s[..k] == head;
    assert s[k + w..] == rest;
  }

  /** A non-empty text without breaks is a single line. */
  lemma SplitLinesOfPlain(head: string)
    requires head != [] && NoBreaks(head)
    ensures SplitLines(head) == [head]
  {
    assert FirstBreak(head) == |head|;
  }

  /** `s` with every line-break character taken out. */
  function RemoveBreaks(s: string): string {
    if s == [] then []
    else (if IsLineBreak(s[0]) then [] else [s[0]]) + RemoveBreaks(s[1..])
  }

  function Concat(lines: seq<string>): string {
    if lines == [] then [] else lines[0] + Concat(lines[1..])
  }

  lemma {:induction false} RemoveBreaksAppend(a: string, b: string)
    ensures RemoveBreaks(a + b) == RemoveBreaks(a) + RemoveBreaks(b)
  {
    if a != [] {
      assert (a + b)[1..] == a[1..] + b;
      RemoveBreaksAppend(a[1..], b);
    } else {
      assert a + b == b;
    }
  }

  lemma {:induction false} RemoveBreaksOfPlain(s: string)
    requires NoBreaks(s)
    ensures RemoveBreaks(s) == s
  {
    if s != [] {
      RemoveBreaksOfPlain(s[1..]);
    }
  }

  lemma {:induction false} RemoveBreaksOfBreaks(s: string)
    requires forall k | 0 <= k < |s| :: IsLineBreak(s[k])
    ensures RemoveBreaks(s) == []
  {
    if s != [] {
      RemoveBreaksOfBreaks(s[1..]);
    }
  }

  lemma RemoveBreaksAround(head: string, brk: string, rest: string)
    requires NoBreaks(head)
    requires forall j | 0 <= j < |brk| :: IsLineBreak(brk[j])
    ensures RemoveBreaks(head + brk + rest) == head + RemoveBreaks(rest)
  {
    calc {
      RemoveBreaks(head + brk + rest);
      { RemoveBreaksAppend(head + brk, rest); }
      RemoveBreaks(head + brk) + RemoveBreaks(rest);
      { RemoveBreaksAppend(head, brk); RemoveBreaksOfPlain(head); RemoveBreaksOfBreaks(brk); }
      head + [] + RemoveBreaks(rest);
      { assert head + [] == head; }
      head + RemoveBreaks(rest);
    }
  }

  lemma BeforeFirstBreakIsPlain(s: string, k: nat, head: string)
    requires k == FirstBreak(s) && head == s[..k]
    ensures NoBreaks(head)
  {
    forall j | 0 <= j < |head| ensures !IsLineBreak(head[j]) {
      assert head[j] == s[j];
    }
  }

  lemma FirstBreakIsBreaks(s: string, k: nat, w: nat, brk: string)
    requires k < |s| && k == FirstBreak(s) && w == BreakWidth(s, k) && brk == s[k..k + w]
    ensures forall j | 0 <= j < |brk| :: IsLineBreak(brk[j])
  {
    assert brk[0] == s[k];
    if w == 2 {
      assert brk[1] == '\n';
    }
  }

  lemma SlicesAround(s: string, i: nat, j: nat)
    requires i <= j <= |s|
    ensures s == s[..i] + s[i..j] + s[j..]
  {
    assert s[..j] == s[..i] + s[i..j];
    assert s == s[..j] + s[j..];
  }

  /** Removing breaks from `s` whose first break, of width `w`, is at `k`. */
  lemma RemoveBreaksAtFirstBreak(s: string, k: nat, w: nat)
    requires k < |s| && k == FirstBreak(s) && w == BreakWidth(s, k)
    ensures RemoveBreaks(s) == s[..k] + RemoveBreaks(s[k + w..])
  {
    var head, brk, rest := s[..k], s[k..k + w], s[k + w..];
    BeforeFirstBreakIsPlain(s, k, head);
    FirstBreakIsBreaks(s, k, w, brk);
    SlicesAround(s, k, k + w);
    RemoveBreaksAround(head, brk, rest);
  }

  /**
   * The lines of `s`, put back together, are `s` without its line-break
   * characters: splitting loses the breaks and nothing else.
   */
  lemma {:induction false} SplitLinesCover(s: string)
    ensures Concat(SplitLines(s)) == RemoveBreaks(s)
    decreases |s|
  {
    if s != [] {
      var k := FirstBreak(s);
      if k == |s| {
        RemoveBreaksOfPlain(s);
        assert Concat([s]) == s + Concat([]);
      } else {
        var w := BreakWidth(s, k);
        SplitLinesCover(s[k + w..]);
        RemoveBreaksAtFirstBreak(s, k, w);
        var lines := SplitLines(s);
        assert lines == [s[..k]] + SplitLines(s[k + w..]);
        assert lines[1..] == SplitLines(s[k + w..]);
      }
    }
  }
}
