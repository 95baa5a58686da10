/**
 * The Python `str` operations the core relies on, with Python's semantics:
 * `isspace`, `strip`, `lstrip(c)`, `split(sep)`, `sep.join`, `in`/`find`,
 * `replace(old, new, 1)`, `<` on strings and `str(int)`.
 */
module PyStr {
  import opened Wrappers

  /**
   * Python's `str.isspace` for a single character: the Unicode whitespace set, that is
   * U+0009..U+000D, U+001C..U+0020 and the code points listed in WhitespaceAbove.
   */
  predicate IsSpace(c: char) {
    if c <= ' ' then '\t' <= c <= '\r' || '\U{1c}' <= c
    else if c < '\U{85}' then false
    else c in WhitespaceAbove
  }

  /** The whitespace characters above U+0084. */
  const WhitespaceAbove: set<char> :=
    { '\U{85}', '\U{a0}', '\U{1680}', '\U{2000}', '\U{2001}', '\U{2002}', '\U{2003}', '\U{2004}',
      '\U{2005}', '\U{2006}', '\U{2007}', '\U{2008}', '\U{2009}', '\U{200a}', '\U{2028}', '\U{2029}',
      '\U{202f}', '\U{205f}', '\U{3000}' }

  /** All characters of `s` are whitespace (the empty string included). */
  predicate AllSpace(s: string) {
    forall k :: 0 <= k < |s| ==> IsSpace(s[k])
  }

  /** `s.lstrip()`: drops leading whitespace, keeps the rest as it is. */
  function StripLeading(s: string): (r: string)
    ensures |r| <= |s|
    ensures r == [] || !IsSpace(r[0])
  {
    if |s| > 0 && IsSpace(s[0]) then StripLeading(s[1..]) else s
  }

  /** `lstrip` removes a whitespace prefix and keeps the rest. */
  lemma {:induction false} StripLeadingSplits(s: string)
    ensures var r := StripLeading(s);
      r == s[|s| - |r|..] && AllSpace(s[..|s| - |r|])
  {
    if |s| > 0 && IsSpace(s[0]) {
      StripLeadingSplits(s[1..]);
      var r := StripLeading(s);
      assert s[1..][|s| - 1 - |r|..] == s[|s| - |r|..];
      assert forall k :: 1 <= k < |s| - |r| ==> s[k] == s[1..][..|s| - 1 - |r|][k - 1];
    }
  }

  /** `s.rstrip()`: drops trailing whitespace, keeps the rest as it is. */
  function StripTrailing(s: string): (r: string)
    ensures |r| <= |s|
    ensures r == [] || !IsSpace(r[|r| - 1])
  {
    if |s| > 0 && IsSpace(s[|s| - 1]) then StripTrailing(s[..|s| - 1]) else s
  }

  /** `rstrip` removes a whitespace suffix and keeps the rest. */
  lemma {:induction false} StripTrailingSplits(s: string)
    ensures var r := StripTrailing(s);
      r == s[..|r|] && AllSpace(s[|r|..])
  {
    if |s| > 0 && IsSpace(s[|s| - 1]) {
      StripTrailingSplits(s[..|s| - 1]);
      var r := StripTrailing(s);
      assert s[..|s| - 1][..|r|] == s[..|r|];
      assert forall k :: |r| <= k < |s| - 1 ==> s[k] == s[..|s| - 1][|r|..][k - |r|];
    }
  }

  /** No whitespace at either end: what `strip` returns. */
  predicate Trimmed(s: string) {
    s == [] || (!IsSpace(s[0]) && !IsSpace(s[|s| - 1]))
  }

  /** `s.strip()`: the part of `s` between its leading and trailing whitespace. */
  function Strip(s: string): string {
    StripTrailing(StripLeading(s))
  }

  /** `strip` leaves no whitespace at either end and never lengthens the text. */
  lemma StripTrims(s: string)
    ensures Trimmed(Strip(s)) && |Strip(s)| <= |s|
  {
    StripTrailingSplits(StripLeading(s));
  }

  /** A string that already has no whitespace at either end is left alone by `strip`. */
  lemma StripTrimmed(s: string)
    requires Trimmed(s)
    ensures Strip(s) == s
  {
  }

  /** `strip` is idempotent. */
  lemma StripIdempotent(s: string)
    ensures Strip(Strip(s)) == Strip(s)
  {
    StripTrims(s);
    StripTrimmed(Strip(s));
  }

  /** `s.strip()` is empty exactly when `s` is all whitespace (Python: `not s.strip()`). */
  lemma StripEmptyIffBlank(s: string)
    ensures Strip(s) == [] <==> AllSpace(s)
  {
    var l := StripLeading(s);
    StripLeadingSplits(s);
    StripTrailingSplits(l);
  }

  /** `s.lstrip(c)`: drops every leading occurrence of the character `c`. */
  function LStripChar(s: string, c: char): (r: string)
    ensures |r| <= |s| && r == s[|s| - |r|..]
    ensures r == [] || r[0] != c
    ensures forall k :: 0 <= k < |s| - |r| ==> s[k] == c
  {
    if |s| > 0 && s[0] == c then LStripChar(s[1..], c) else s
  }

  /** Index of the first occurrence of `c` in `s`. */
  function IndexOfChar(s: string, c: char): (i: nat)
    requires c in s
    ensures i < |s| && s[i] == c
    ensures forall j :: 0 <= j < i ==> s[j] != c
  {
    if s[0] == c then 0 else 1 + IndexOfChar(s[1..], c)
  }

  /** `s.split(sep)` for a one-character separator: never empty, no part holds `sep`. */
  function Split(s: string, sep: char): (parts: seq<string>)
    ensures |parts| >= 1
    ensures forall k :: 0 <= k < |parts| ==> sep !in parts[k]
    decreases |s|
  {
    if sep in s then
      var i := IndexOfChar(s, sep);
      [s[..i]] + Split(s[i + 1..], sep)
    else
      [s]
  }

  /** `sep.join(parts)` for a one-character separator. */
  function Join(parts: seq<string>, sep: char): string
  {
    if |parts| == 0 then ""
    else if |parts| == 1 then parts[0]
    else parts[0] + [sep] + Join(parts[1..], sep)
  }

  /** Joining the pieces of a split restores the string. */
  lemma {:induction false} JoinSplit(s: string, sep: char)
    ensures Join(Split(s, sep), sep) == s
    decreases |s|
  {
    if sep in s {
      var i := IndexOfChar(s, sep);
      var rest := Split(s[i + 1..], sep);
      JoinSplit(s[i + 1..], sep);
      assert Split(s, sep) == [s[..i]] + rest;
      assert ([s[..i]] + rest)[1..] == rest;
      assert s == s[..i] + [sep] + s[i + 1..];
    }
  }

  /** The first separator of `p + [sep] + t` is the one after `p` when `p` has none. */
  lemma IndexAfterPrefix(p: string, sep: char, t: string)
    requires sep !in p
    ensures IndexOfChar(p + [sep] + t, sep) == |p|
  {
    var s := p + [sep] + t;
    var i := IndexOfChar(s, sep);
    assert s[..|p|] == p && s[|p|] == sep;
  }

  /** Splitting a join of separator-free pieces gives the pieces back. */
  lemma {:induction false} SplitJoin(parts: seq<string>, sep: char)
    requires |parts| >= 1
    requires forall k :: 0 <= k < |parts| ==> sep !in parts[k]
    ensures Split(Join(parts, sep), sep) == parts
  {
    if |parts| > 1 {
      var p, tail := parts[0], Join(parts[1..], sep);
      var s := p + [sep] + tail;
      assert Join(parts, sep) == s;
      assert s[|p|] == sep;
      IndexAfterPrefix(p, sep, tail);
      assert s[..|p|] == p && s[|p| + 1..] == tail;
      SplitJoin(parts[1..], sep);
      assert parts == [p] + parts[1..];
    }
  }

  /** Each line followed by a newline, in order: what writing the lines one per line produces. */
  function Terminated(lines: seq<string>): string {
    if lines == [] then "" else lines[0] + "\n" + Terminated(lines[1..])
  }

  /** Writing one more line appends it and its newline. */
  lemma {:induction false} TerminatedSnoc(lines: seq<string>, line: string)
    ensures Terminated(lines + [line]) == Terminated(lines) + line + "\n"
  {
    if lines != [] {
      assert (lines + [line])[1..] == lines[1..] + [line];
      TerminatedSnoc(lines[1..], line);
    }
  }

  /** Joining with newlines is terminating all pieces but the last with one. */
  lemma {:induction false} JoinAsTerminated(p: seq<string>)
    requires |p| >= 1
    ensures Join(p, '\n') == Terminated(p[..|p| - 1]) + p[|p| - 1]
  {
    if |p| > 1 {
      JoinAsTerminated(p[1..]);
      assert p[..|p| - 1][1..] == p[1..][..|p| - 2];
    }
  }

  /** `pat` occurs in `s` starting at index `i`. */
  predicate OccursAt(s: string, pat: string, i: nat) {
    i + |pat| <= |s| && s[i..i + |pat|] == pat
  }

  function FindFrom(s: string, pat: string, from: nat): (r: Option<nat>)
    ensures r.Some? ==> from <= r.value && OccursAt(s, pat, r.value)
    ensures r.Some? ==> forall j :: from <= j < r.value ==> !OccursAt(s, pat, j)
    ensures r.None? ==> forall j :: from <= j ==> !OccursAt(s, pat, j)
    decreases |s| - from
  {
    if from + |pat| > |s| then None
    else if OccursAt(s, pat, from) then Some(from)
    else FindFrom(s, pat, from + 1)
  }

  /** `s.find(pat)`: the first index where `pat` occurs, `None` for Python's -1. */
  function Find(s: string, pat: string): (r: Option<nat>)
    ensures r.Some? ==> OccursAt(s, pat, r.value)
    ensures r.Some? ==> forall j :: 0 <= j < r.value ==> !OccursAt(s, pat, j)
    ensures r.None? ==> forall j :: 0 <= j ==> !OccursAt(s, pat, j)
  {
    FindFrom(s, pat, 0)
  }

  /** Python's `pat in s`. */
  predicate Contains(s: string, pat: string) {
    Find(s, pat).Some?
  }

  /** The empty string occurs in every string, at index 0. */
  lemma EmptyOccursFirst(s: string)
    ensures Find(s, "") == Some(0)
  {
    assert OccursAt(s, "", 0);
  }

  /** `s.replace(pat, rep, 1)`: only the first occurrence is replaced. */
  function ReplaceFirst(s: string, pat: string, rep: string): string
  {
    match Find(s, pat)
    case None => s
    case Some(i) => s[..i] + rep + s[i + |pat|..]
  }

  /**
   * What `replace(pat, rep, 1)` does to the text around the first occurrence:
   * everything before it and everything after it is kept as it was.
   */
  lemma ReplaceFirstKeepsRest(s: string, pat: string, rep: string, i: nat)
    requires Find(s, pat) == Some(i)
    ensures var r := ReplaceFirst(s, pat, rep);
      && |r| == |s| - |pat| + |rep|
      && r[..i] == s[..i]
      && r[i..i + |rep|] == rep
      && r[i + |rep|..] == s[i + |pat|..]
      && s == r[..i] + pat + r[i + |rep|..]
  {
  }

  /** Python's `<` on strings: lexicographic by code point, a proper prefix first. */
  predicate LexLess(a: string, b: string) {
    if |a| == 0 then |b| > 0
    else if |b| == 0 then false
    else if a[0] < b[0] then true
    else if a[0] == b[0] then LexLess(a[1..], b[1..])
    else false
  }

  lemma {:induction false} LexLessIrreflexive(a: string)
    ensures !LexLess(a, a)
  {
    if |a| > 0 {
      LexLessIrreflexive(a[1..]);
    }
  }

  lemma {:induction false} LexLessTransitive(a: string, b: string, c: string)
    requires LexLess(a, b) && LexLess(b, c)
    ensures LexLess(a, c)
  {
    if |a| > 0 && |b| > 0 && |c| > 0 && a[0] == b[0] == c[0] {
      LexLessTransitive(a[1..], b[1..], c[1..]);
    }
  }

  lemma {:induction false} LexLessTotal(a: string, b: string)
    requires a != b
    ensures LexLess(a, b) || LexLess(b, a)
  {
    if |a| > 0 && |b| > 0 && a[0] == b[0] {
      assert a == [a[0]] + a[1..] && b == [b[0]] + b[1..];
      LexLessTotal(a[1..], b[1..]);
    }
  }

  function DigitChar(d: nat): char
    requires d < 10
  {
    "0123456789"[d]
  }

  function NatToString(n: nat): (r: string)
    ensures |r| >= 1
    ensures forall k :: 0 <= k < |r| ==> '0' <= r[k] <= '9'
  {
    if n < 10 then [DigitChar(n)] else NatToString(n / 10) + [DigitChar(n % 10)]
  }

  /** Python's `str(i)` for an integer: its decimal digits, with a leading '-' when negative. */
  function IntToString(i: int): (r: string)
    ensures |r| >= 1
  {
    if i < 0 then "-" + NatToString(-i) else NatToString(i)
  }
}
