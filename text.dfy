/**
 * The handful of Python `str` operations the program relies on, written out
 * over `seq<char>`: whitespace stripping, case mapping, searching, joining
 * and `splitlines`.
 */
module Text {
  import opened Base

  /** Python's `str.isspace` for one character (the characters `str.strip()` removes). */
  predicate IsSpace(c: char) {
    c == ' ' || c == '\t' || c == '\n' || c == '\r' || c == '\U{B}' || c == '\U{C}'
    || ('\U{1C}' <= c <= '\U{1F}') || c == '\U{85}' || c == '\U{A0}' || c == '\U{1680}'
    || ('\U{2000}' <= c <= '\U{200A}') || c == '\U{2028}' || c == '\U{2029}'
    || c == '\U{202F}' || c == '\U{205F}' || c == '\U{3000}'
  }

  /** The line boundaries of Python's `str.splitlines` (`\r\n` counts once, see SplitLines). */
  predicate IsLineBreak(c: char) {
    c == '\n' || c == '\r' || c == '\U{B}' || c == '\U{C}' || ('\U{1C}' <= c <= '\U{1E}')
    || c == '\U{85}' || c == '\U{2028}' || c == '\U{2029}'
  }

  /**
   * Python's `c.lower()` as far as comparisons with ASCII names go: the only
   * characters whose lower case is ASCII are `A`-`Z` and the Kelvin sign.
   */
  function LowerChar(c: char): char {
    if 'A' <= c <= 'Z' then (c as int + 32) as char
    else if c == '\U{212A}' then 'k'
    else c
  }

  /** The character equivalence of `re.IGNORECASE`: also folds the long s onto `s`. */
  function FoldChar(c: char): char {
    if c == '\U{17F}' then 's' else LowerChar(c)
  }

  /** Python's `c.upper()` on ASCII letters. */
  function UpperChar(c: char): char {
    if 'a' <= c <= 'z' then (c as int - 32) as char else c
  }

  function Lower(s: string): (r: string)
    ensures |r| == |s|
  {
    seq(|s|, i requires 0 <= i < |s| => LowerChar(s[i]))
  }

  function Upper(s: string): (r: string)
    ensures |r| == |s|
  {
    seq(|s|, i requires 0 <= i < |s| => UpperChar(s[i]))
  }

  /** Text without upper-case ASCII letters or the Kelvin sign is its own lower case. */
  lemma LowerNoop(s: string)
    requires forall i :: 0 <= i < |s| ==> !('A' <= s[i] <= 'Z') && s[i] != '\U{212A}'
    ensures Lower(s) == s
  {
  }

  /** Upper-casing twice is upper-casing once. */
  lemma UpperIdempotent(s: string)
    ensures Upper(Upper(s)) == Upper(s)
  {
  }

  /** Python's `s.lstrip(chars)`, the characters given as a predicate. */
  function TrimStart(s: string, drop: char -> bool): (r: string)
    ensures |r| <= |s| && r == s[|s| - |r|..]
    ensures r != [] ==> !drop(r[0])
    ensures forall k :: 0 <= k < |s| - |r| ==> drop(s[k])
  {
    if s != [] && drop(s[0]) then
      var r := TrimStart(s[1..], drop);
      assert forall k :: 1 <= k < |s| - |r| ==> s[k] == s[1..][k - 1];
      r
    else s
  }

  /** Python's `s.rstrip(chars)`. */
  function TrimEnd(s: string, drop: char -> bool): (r: string)
    ensures |r| <= |s| && r == s[..|r|]
    ensures r != [] ==> !drop(r[|r| - 1])
    ensures forall k :: |r| <= k < |s| ==> drop(s[k])
  {
    if s != [] && drop(s[|s| - 1]) then TrimEnd(s[..|s| - 1], drop) else s
  }

  /** Python's `s.strip(chars)`. */
  function Trim(s: string, drop: char -> bool): (r: string)
    ensures r != [] ==> !drop(r[0]) && !drop(r[|r| - 1])
    ensures |r| <= |s|
  {
    TrimEnd(TrimStart(s, drop), drop)
  }

  /** Stripping never introduces a character. */
  lemma TrimKeepsAbsent(s: string, drop: char -> bool, c: char)
    requires forall i :: 0 <= i < |s| ==> s[i] != c
    ensures forall i :: 0 <= i < |Trim(s, drop)| ==> Trim(s, drop)[i] != c
  {
    var t := TrimStart(s, drop);
    SuffixKeepsAbsent(s, |s| - |t|, c);
    TrimEndKeepsAbsent(t, drop, c);
  }

  lemma SuffixKeepsAbsent(s: string, k: nat, c: char)
    requires k <= |s| && forall i :: 0 <= i < |s| ==> s[i] != c
    ensures forall i :: 0 <= i < |s[k..]| ==> s[k..][i] != c
  {
    assert forall i :: 0 <= i < |s[k..]| ==> s[k..][i] == s[k + i];
  }

  lemma TrimEndKeepsAbsent(t: string, drop: char -> bool, c: char)
    requires forall i :: 0 <= i < |t| ==> t[i] != c
    ensures forall i :: 0 <= i < |TrimEnd(t, drop)| ==> TrimEnd(t, drop)[i] != c
  {
    var r := TrimEnd(t, drop);
    assert forall i :: 0 <= i < |r| ==> r[i] == t[i];
  }

  lemma {:induction false} TrimStartNoop(s: string, drop: char -> bool)
    requires s != [] ==> !drop(s[0])
    ensures TrimStart(s, drop) == s
  {
  }

  lemma {:induction false} TrimEndNoop(s: string, drop: char -> bool)
    requires s != [] ==> !drop(s[|s| - 1])
    ensures TrimEnd(s, drop) == s
  {
  }

  /** A string made only of dropped characters strips to nothing. */
  lemma TrimAllDropped(s: string, drop: char -> bool)
    requires forall i :: 0 <= i < |s| ==> drop(s[i])
    ensures Trim(s, drop) == []
  {
  }

  /** Stripping is idempotent. */
  lemma TrimIdempotent(s: string, drop: char -> bool)
    ensures Trim(Trim(s, drop), drop) == Trim(s, drop)
  {
    var r := Trim(s, drop);
    TrimStartNoop(r, drop);
    TrimEndNoop(r, drop);
  }

  /** Python's `s.strip()`. */
  function Strip(s: string): (r: string)
    ensures r != [] ==> !IsSpace(r[0]) && !IsSpace(r[|r| - 1])
  {
    Trim(s, IsSpace)
  }

  lemma StripIdempotent(s: string)
    ensures Strip(Strip(s)) == Strip(s)
  {
    TrimIdempotent(s, IsSpace);
  }

  lemma StripNoop(s: string)
    requires s != [] ==> !IsSpace(s[0]) && !IsSpace(s[|s| - 1])
    ensures Strip(s) == s
  {
    TrimStartNoop(s, IsSpace);
    TrimEndNoop(s, IsSpace);
  }

  predicate StartsWith(s: string, prefix: string) {
    |prefix| <= |s| && s[..|prefix|] == prefix
  }

  predicate EndsWith(s: string, suffix: string) {
    |suffix| <= |s| && s[|s| - |suffix|..] == suffix
  }

  /** `pat` occurs in `s` at position `k`. */
  predicate MatchAt(s: string, k: nat, pat: string) {
    k + |pat| <= |s| && s[k..k + |pat|] == pat
  }

  /** `pat` (written in lower case) occurs in `s` at `k` under `re.IGNORECASE`. */
  predicate FoldMatchAt(s: string, k: nat, pat: string) {
    k + |pat| <= |s| && forall j :: 0 <= j < |pat| ==> FoldChar(s[k + j]) == pat[j]
  }

  /** The first occurrence of `sub` in `s` at or after `from` (Python's `s.find(sub, from)`). */
  function FindFrom(s: string, sub: string, from: nat): (r: Option<nat>)
    decreases |s| - from
    ensures r.Some? ==> from <= r.value && MatchAt(s, r.value, sub)
    ensures r.Some? ==> forall k :: from <= k < r.value ==> !MatchAt(s, k, sub)
    ensures r.None? ==> forall k :: from <= k ==> !MatchAt(s, k, sub)
  {
    if from + |sub| > |s| then None
    else if MatchAt(s, from, sub) then Some(from)
    else FindFrom(s, sub, from + 1)
  }

  /** Python's `sub in s`. */
  predicate Contains(s: string, sub: string) {
    FindFrom(s, sub, 0).Some?
  }

  lemma ContainsAt(s: string, sub: string, k: nat)
    requires MatchAt(s, k, sub)
    ensures Contains(s, sub)
  {
  }

  /** The first index at or after `from` holding `c`. */
  function FindChar(s: string, c: char, from: nat): (r: Option<nat>)
    decreases |s| - from
    ensures r.Some? ==> from <= r.value < |s| && s[r.value] == c
    ensures r.Some? ==> forall k :: from <= k < r.value ==> s[k] != c
    ensures r.None? ==> forall k :: from <= k < |s| ==> s[k] != c
  {
    if from >= |s| then None
    else if s[from] == c then Some(from)
    else FindChar(s, c, from + 1)
  }

  /** A run of `n` characters other than `c` from `start`, ended by `c` or by the end of `s`. */
  lemma FindCharRun(s: string, c: char, start: nat, n: nat)
    requires start + n <= |s|
    requires forall i :: start <= i < start + n ==> s[i] != c
    requires start + n == |s| || s[start + n] == c
    ensures FindChar(s, c, start) == if start + n == |s| then None else Some(start + n)
  {
  }

  /** Python's `sep.join(parts)`. */
  function Join(sep: string, parts: seq<string>): string {
    if parts == [] then ""
    else if |parts| == 1 then parts[0]
    else parts[0] + sep + Join(sep, parts[1..])
  }

  /** How many times `c` occurs in `s`. */
  function CountChar(s: string, c: char): nat {
    if s == [] then 0 else (if s[0] == c then 1 else 0) + CountChar(s[1..], c)
  }

  lemma {:induction false} CountCharAppend(a: string, b: string, c: char)
    ensures CountChar(a + b, c) == CountChar(a, c) + CountChar(b, c)
  {
    if a == [] {
      assert a + b == b;
    } else {
      assert (a + b)[1..] == a[1..] + b;
      CountCharAppend(a[1..], b, c);
    }
  }

  /** Python's `s.splitlines()`: no trailing empty line, `\r\n` is one boundary. */
  function SplitLines(s: string): seq<string>
    decreases |s|
  {
    if s == [] then []
    else
      match FindLineBreak(s, 0)
      case None => [s]
      case Some(i) =>
        var next := if s[i] == '\r' && i + 1 < |s| && s[i + 1] == '\n' then i + 2 else i + 1;
        [s[..i]] + SplitLines(s[next..])
  }

  function FindLineBreak(s: string, from: nat): (r: Option<nat>)
    decreases |s| - from
    ensures r.Some? ==> from <= r.value < |s| && IsLineBreak(s[r.value])
    ensures r.Some? ==> forall k :: from <= k < r.value ==> !IsLineBreak(s[k])
    ensures r.None? ==> forall k :: from <= k < |s| ==> !IsLineBreak(s[k])
  {
    if from >= |s| then None
    else if IsLineBreak(s[from]) then Some(from)
    else FindLineBreak(s, from + 1)
  }

  predicate NoLineBreak(s: string) {
    forall k :: 0 <= k < |s| ==> !IsLineBreak(s[k])
  }

  /** Joining non-empty, break-free lines with `\n` and splitting them again gives the lines back. */
  lemma {:induction false} SplitJoinedLines(lines: seq<string>)
    requires forall i :: 0 <= i < |lines| ==> lines[i] != [] && NoLineBreak(lines[i])
    ensures SplitLines(Join("\n", lines)) == lines
  {
    if lines == [] {
    } else if |lines| == 1 {
      assert FindLineBreak(lines[0], 0).None?;
    } else {
      FirstJoinedLine(lines[0], lines[1..]);
      SplitJoinedLines(lines[1..]);
      assert lines == [lines[0]] + lines[1..];
    }
  }

  /** The first of several joined lines is split off at its line feed. */
  lemma FirstJoinedLine(l: string, more: seq<string>)
    requires l != [] && NoLineBreak(l) && more != []
    ensures SplitLines(Join("\n", [l] + more)) == [l] + SplitLines(Join("\n", more))
  {
    var lines := [l] + more;
    assert lines[1..] == more;
    var s := Join("\n", lines);
    assert s == l + "\n" + Join("\n", more);
    assert s[|l|] == '\n';
    assert forall k :: 0 <= k < |l| ==> s[k] == l[k];
    assert FindLineBreak(s, 0) == Some(|l|);
    assert s[..|l|] == l;
    assert s[|l| + 1..] == Join("\n", more);
  }
}
