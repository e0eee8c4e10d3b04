/**
 * The JavaScript string built-ins and regular-expression character classes that the
 * handlers use, over strings of Unicode scalar values: `trim`, `indexOf`, `split` with a
 * string separator, `split(/[\r\n]+/)`, `replace` with a string pattern, and the order
 * in which the store compares string attributes.
 */
module JsStrings {
  import opened Wrappers

  /** `\s` in a regular expression, and what `String.prototype.trim` strips: the
      WhiteSpace and LineTerminator code points of ECMAScript. */
  predicate IsSpace(c: char) {
    c == '\t' || c == '\n' || c == '\U{000B}' || c == '\U{000C}' || c == '\r' || c == ' ' ||
    c == '\U{00A0}' || c == '\U{1680}' || ('\U{2000}' <= c <= '\U{200A}') ||
    c == '\U{2028}' || c == '\U{2029}' || c == '\U{202F}' || c == '\U{205F}' ||
    c == '\U{3000}' || c == '\U{FEFF}'
  }

  /** What `.` in a regular expression without the `s` flag refuses to match. */
  predicate IsLineTerminator(c: char) {
    c == '\n' || c == '\r' || c == '\U{2028}' || c == '\U{2029}'
  }

  /** The character class `[\r\n]`. */
  predicate IsBreak(c: char) {
    c == '\r' || c == '\n'
  }

  predicate AllSpace(s: string) {
    forall i :: 0 <= i < |s| ==> IsSpace(s[i])
  }

  predicate NoSpace(s: string) {
    forall i :: 0 <= i < |s| ==> !IsSpace(s[i])
  }

  predicate AllBreaks(s: string) {
    forall i :: 0 <= i < |s| ==> IsBreak(s[i])
  }

  predicate NoBreak(s: string) {
    forall i :: 0 <= i < |s| ==> !IsBreak(s[i])
  }

  predicate NoLineTerminator(s: string) {
    forall i :: 0 <= i < |s| ==> !IsLineTerminator(s[i])
  }

  predicate StartsWith(s: string, prefix: string) {
    |prefix| <= |s| && s[..|prefix|] == prefix
  }

  /** `pat` occurs in `s` starting at index `i`. */
  predicate OccursAt(s: string, pat: string, i: nat) {
    i + |pat| <= |s| && s[i..i + |pat|] == pat
  }

  predicate Contains(s: string, pat: string) {
    exists i: nat :: i <= |s| && OccursAt(s, pat, i)
  }

  // ---------------------------------------------------------------------------
  // Searching

  /** The first index at or after `from` where `pat` occurs in `s`, as `indexOf` finds it. */
  function IndexFrom(s: string, pat: string, from: nat): (r: Option<nat>)
    decreases |s| - from
    ensures r.Some? ==> from <= r.value && OccursAt(s, pat, r.value)
    ensures r.Some? ==> forall j: nat :: from <= j < r.value ==> !OccursAt(s, pat, j)
    ensures r.None? ==> forall j: nat :: from <= j ==> !OccursAt(s, pat, j)
  {
    if from + |pat| > |s| then None
    else if s[from..from + |pat|] == pat then Some(from)
    else IndexFrom(s, pat, from + 1)
  }

  /** An occurrence with none before it is the one `indexOf` finds. */
  lemma IndexFromIs(s: string, pat: string, from: nat, i: nat)
    requires from <= i && OccursAt(s, pat, i)
    requires forall j: nat :: from <= j < i ==> !OccursAt(s, pat, j)
    ensures IndexFrom(s, pat, from) == Some(i)
  {
  }

  /** An occurrence inside a prefix of `s` is an occurrence in `s`. */
  lemma OccursInPrefix(s: string, pat: string, n: nat, j: nat)
    requires n <= |s| && OccursAt(s[..n], pat, j)
    ensures OccursAt(s, pat, j)
  {
    assert s[..n][j..j + |pat|] == s[j..j + |pat|];
  }

  /** Nothing before the first occurrence of `pat` contains `pat`. */
  lemma BeforeFirstOccurrence(s: string, pat: string, i: nat)
    requires pat != "" && IndexFrom(s, pat, 0) == Some(i)
    ensures !Contains(s[..i], pat)
  {
    if Contains(s[..i], pat) {
      var j: nat :| OccursAt(s[..i], pat, j);
      OccursInPrefix(s, pat, i, j);
    }
  }

  /** `s.replace(pat, rep)` with a string pattern: only the first occurrence is replaced. */
  function ReplaceFirst(s: string, pat: string, rep: string): (r: string)
    ensures !Contains(s, pat) ==> r == s
    ensures StartsWith(s, pat) ==> r == rep + s[|pat|..]
  {
    match IndexFrom(s, pat, 0)
    case None => s
    case Some(i) =>
      assert StartsWith(s, pat) ==> OccursAt(s, pat, 0);
      s[..i] + rep + s[i + |pat|..]
  }

  // ---------------------------------------------------------------------------
  // split with a string separator

  /** `s.split(sep)` for a non-empty separator: the pieces between the non-overlapping
      occurrences of `sep`, found from left to right. */
  function Split(s: string, sep: string): (parts: seq<string>)
    requires sep != ""
    ensures |parts| >= 1
    ensures forall k :: 0 <= k < |parts| ==> !Contains(parts[k], sep)
    decreases |s|
  {
    match IndexFrom(s, sep, 0)
    case None => [s]
    case Some(i) =>
      BeforeFirstOccurrence(s, sep, i);
      [s[..i]] + Split(s[i + |sep|..], sep)
  }

  /** The pieces with `sep` put back between them: the inverse of `Split`. */
  function Join(parts: seq<string>, sep: string): string
    requires |parts| >= 1
  {
    if |parts| == 1 then parts[0] else parts[0] + sep + Join(parts[1..], sep)
  }

  /** Splitting loses nothing: joining the pieces again gives back the string. */
  lemma {:induction false} JoinSplit(s: string, sep: string)
    requires sep != ""
    ensures Join(Split(s, sep), sep) == s
    decreases |s|
  {
    match IndexFrom(s, sep, 0)
    case None =>
    case Some(i) =>
      var rest := s[i + |sep|..];
      var tail := Split(rest, sep);
      JoinSplit(rest, sep);
      JoinCons(s[..i], tail, sep);
      assert s == s[..i] + sep + rest;
  }

  lemma JoinCons(x: string, tail: seq<string>, sep: string)
    requires |tail| >= 1
    ensures Join([x] + tail, sep) == x + sep + Join(tail, sep)
  {
    assert ([x] + tail)[1..] == tail;
  }

  /** A string without the separator is one piece. */
  lemma SplitWithout(s: string, sep: string)
    requires sep != "" && !Contains(s, sep)
    ensures Split(s, sep) == [s]
  {
    match IndexFrom(s, sep, 0)
    case None =>
    case Some(i) =>
      assert false;
  }

  /** The first piece is what comes before the first separator. */
  lemma SplitAfterFirst(a: string, sep: string, b: string)
    requires sep != "" && !Contains(a + sep[..|sep| - 1], sep)
    ensures Split(a + sep + b, sep) == [a] + Split(b, sep)
  {
    var s := a + sep + b;
    assert OccursAt(s, sep, |a|) by { assert s[|a|..|a| + |sep|] == sep; }
    forall j: nat | j < |a| ensures !OccursAt(s, sep, j) {
      if OccursAt(s, sep, j) {
        var t := a + sep[..|sep| - 1];
        assert t == s[..|a| + |sep| - 1];
        assert s[..|a| + |sep| - 1][j..j + |sep|] == s[j..j + |sep|];
        assert OccursAt(t, sep, j);
      }
    }
    match IndexFrom(s, sep, 0)
    case None =>
      assert false;
    case Some(i) =>
      assert i == |a|;
      assert s[..i] == a;
      assert s[i + |sep|..] == b;
  }

  // ---------------------------------------------------------------------------
  // trim

  /** How many `IsSpace` characters `s` starts with. */
  function LeadingSpaces(s: string): (k: nat)
    ensures k <= |s|
    ensures forall i :: 0 <= i < k ==> IsSpace(s[i])
    ensures k < |s| ==> !IsSpace(s[k])
  {
    if s == [] || !IsSpace(s[0]) then 0 else 1 + LeadingSpaces(s[1..])
  }

  /** How many `IsSpace` characters `s` ends with. */
  function TrailingSpaces(s: string): (k: nat)
    ensures k <= |s|
    ensures forall i :: |s| - k <= i < |s| ==> IsSpace(s[i])
    ensures k < |s| ==> !IsSpace(s[|s| - 1 - k])
  {
    if s == [] || !IsSpace(s[|s| - 1]) then 0 else 1 + TrailingSpaces(s[..|s| - 1])
  }

  /** `s.trim()`. */
  function Trim(s: string): (r: string)
    ensures r == "" || (!IsSpace(r[0]) && !IsSpace(r[|r| - 1]))
    ensures AllSpace(s) ==> r == ""
  {
    var t := s[LeadingSpaces(s)..];
    t[..|t| - TrailingSpaces(t)]
  }

  /** Trimming removes exactly the white space around a string that has none at its ends. */
  lemma TrimPadded(a: string, x: string, b: string)
    requires AllSpace(a) && AllSpace(b)
    requires x != "" && !IsSpace(x[0]) && !IsSpace(x[|x| - 1])
    ensures Trim(a + x + b) == x
  {
    var s := a + x + b;
    var k := LeadingSpaces(s);
    assert s[|a|] == x[0];
    assert forall i :: 0 <= i < |a| ==> s[i] == a[i];
    assert k == |a|;
    var t := s[k..];
    assert t == x + b;
    var m := TrailingSpaces(t);
    assert t[|x| - 1] == x[|x| - 1];
    assert forall i :: |x| <= i < |t| ==> t[i] == b[i - |x|];
    assert m == |b|;
    assert t[..|t| - m] == x;
  }

  // ---------------------------------------------------------------------------
  // split(/[\r\n]+/)

  /** The first index at or after `from` holding CR or LF, or `|s|`. */
  function BreakFrom(s: string, from: nat): (k: nat)
    requires from <= |s|
    decreases |s| - from
    ensures from <= k <= |s|
    ensures forall i :: from <= i < k ==> !IsBreak(s[i])
    ensures k < |s| ==> IsBreak(s[k])
  {
    if from == |s| || IsBreak(s[from]) then from else BreakFrom(s, from + 1)
  }

  /** The end of the run of CR and LF characters that starts at `from`. */
  function RunEnd(s: string, from: nat): (k: nat)
    requires from <= |s|
    decreases |s| - from
    ensures from <= k <= |s|
    ensures forall i :: from <= i < k ==> IsBreak(s[i])
    ensures k < |s| ==> !IsBreak(s[k])
  {
    if from == |s| || !IsBreak(s[from]) then from else RunEnd(s, from + 1)
  }

  /** `s.split(/[\r\n]+/)`: the pieces between maximal runs of CR and LF characters. */
  function SplitBreaks(s: string): (lines: seq<string>)
    ensures |lines| >= 1
    ensures forall k :: 0 <= k < |lines| ==> NoBreak(lines[k])
    decreases |s|
  {
    var i := BreakFrom(s, 0);
    if i == |s| then [s]
    else [s[..i]] + SplitBreaks(s[RunEnd(s, i)..])
  }

  /** A text with no line break is a single line. */
  lemma SplitBreaksSingle(s: string)
    requires NoBreak(s)
    ensures SplitBreaks(s) == [s]
  {
    assert BreakFrom(s, 0) == |s|;
  }

  /** Two lines separated by any run of CR and LF split into exactly those two lines. */
  lemma SplitBreaksTwo(a: string, run: string, b: string)
    requires NoBreak(a) && NoBreak(b) && run != "" && AllBreaks(run)
    ensures SplitBreaks(a + run + b) == [a, b]
  {
    var s := a + run + b;
    var i := BreakFrom(s, 0);
    assert forall k :: 0 <= k < |a| ==> s[k] == a[k];
    assert s[|a|] == run[0];
    assert i == |a|;
    var j := RunEnd(s, i);
    assert forall k :: |a| <= k < |a| + |run| ==> s[k] == run[k - |a|];
    assert b != [] ==> s[|a| + |run|] == b[0];
    assert j == |a| + |run|;
    assert s[..i] == a;
    assert s[j..] == b;
    SplitBreaksSingle(b);
  }

  // ---------------------------------------------------------------------------
  // The order of string attributes

  /** Lexicographic order by code point. The store compares string attributes by their
      UTF-8 bytes, which orders strings of code points the same way. */
  predicate Less(a: string, b: string)
    decreases |a|
  {
    if a == [] then b != []
    else if b == [] then false
    else if a[0] != b[0] then a[0] < b[0]
    else Less(a[1..], b[1..])
  }

  lemma {:induction false} LessIrreflexive(a: string)
    ensures !Less(a, a)
    decreases |a|
  {
    if a != [] {
      LessIrreflexive(a[1..]);
    }
  }

  lemma {:induction false} LessTransitive(a: string, b: string, c: string)
    requires Less(a, b) && Less(b, c)
    ensures Less(a, c)
    decreases |a|
  {
    if a != [] && a[0] == b[0] && b[0] == c[0] {
      LessTransitive(a[1..], b[1..], c[1..]);
    }
  }

  /** Any two different strings are ordered one way or the other. */
  lemma {:induction false} LessTotal(a: string, b: string)
    ensures a == b || Less(a, b) || Less(b, a)
    decreases |a|
  {
    if a != [] && b != [] && a[0] == b[0] {
      LessTotal(a[1..], b[1..]);
      if a[1..] == b[1..] {
        assert a == [a[0]] + a[1..] && b == [b[0]] + b[1..];
      }
    }
  }

  lemma {:induction false} LessAsymmetric(a: string, b: string)
    requires Less(a, b)
    ensures !Less(b, a)
    decreases |a|
  {
    if a != [] && a[0] == b[0] {
      LessAsymmetric(a[1..], b[1..]);
    }
  }
}
