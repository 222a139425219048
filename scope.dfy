/**
 * Capture scope. A scope pattern without glob syntax is a substring test on
 * the URL; any other pattern is a shell-style glob (`*`, `?`, `[...]`) that
 * must match the whole URL, case-sensitively, with the meaning
 * `fnmatch.translate` gives it. A URL is in scope when some include pattern
 * matches it and no exclude pattern does.
 */
module Scope {
  import opened Base
  import opened Text

  /** The characters that make a pattern a glob. */
  predicate IsWildcard(c: char) {
    c == '*' || c == '?' || c == '['
  }

  predicate HasWildcard(p: string) {
    exists i :: 0 <= i < |p| && IsWildcard(p[i])
  }

  /** One member of a bracket expression: a character, or a range `lo-hi` (empty when `lo > hi`). */
  datatype ClassItem = Single(c: char) | Range(lo: char, hi: char)

  /** A compiled glob: `*`, `?`, a literal character, or a bracket expression, negated by a leading `!`. */
  datatype Token = Star | AnyChar | Lit(c: char) | Class(negated: bool, items: seq<ClassItem>)

  /**
   * The members of a bracket expression's body. A `-` between two characters
   * makes a range; a `-` directly after a range's upper end is literal (so
   * `a-c-e` is the range `a-c`, then `-`, then `e`), and so is a `-` at either
   * end.
   */
  function ClassItems(body: string): (r: seq<ClassItem>)
    decreases |body|
  {
    if body == [] then []
    else if |body| >= 3 && body[1] == '-' then [Range(body[0], body[2])] + ClassItems(body[3..])
    else [Single(body[0])] + ClassItems(body[1..])
  }

  predicate ItemHas(item: ClassItem, c: char) {
    match item
    case Single(x) => x == c
    case Range(lo, hi) => lo <= c <= hi
  }

  predicate ClassHas(negated: bool, items: seq<ClassItem>, c: char) {
    (exists i :: 0 <= i < |items| && ItemHas(items[i], c)) != negated
  }

  /**
   * Where the bracket expression opened by `p[0]` closes: the first `]`
   * after the optional `!` and after a `]` standing first in the body.
   */
  function ClassEnd(p: string): (r: Option<nat>)
    requires p != [] && p[0] == '['
    ensures r.Some? ==> 1 <= r.value < |p| && p[r.value] == ']'
  {
    var j := if 1 < |p| && p[1] == '!' then 2 else 1;
    var k := if j < |p| && p[j] == ']' then j + 1 else j;
    FindChar(p, ']', k)
  }

  function ClassToken(body: string): Token {
    if body != [] && body[0] == '!' then Class(true, ClassItems(body[1..]))
    else Class(false, ClassItems(body))
  }

  /** `fnmatch.translate`, as tokens: a `[` that is never closed is literal. */
  function Tokenize(p: string): seq<Token>
    decreases |p|
  {
    if p == [] then []
    else if p[0] == '*' then [Star] + Tokenize(p[1..])
    else if p[0] == '?' then [AnyChar] + Tokenize(p[1..])
    else if p[0] == '[' then
      match ClassEnd(p)
      case None => [Lit('[')] + Tokenize(p[1..])
      case Some(j) => [ClassToken(p[1..j])] + Tokenize(p[j + 1..])
    else [Lit(p[0])] + Tokenize(p[1..])
  }

  /** The compiled regular expression matches the whole of `s`. */
  predicate GlobMatch(toks: seq<Token>, s: string)
    decreases |toks|, |s|
  {
    if toks == [] then s == []
    else
      match toks[0]
      case Star => GlobMatch(toks[1..], s) || (s != [] && GlobMatch(toks, s[1..]))
      case AnyChar => s != [] && GlobMatch(toks[1..], s[1..])
      case Lit(c) => s != [] && s[0] == c && GlobMatch(toks[1..], s[1..])
      case Class(negated, items) => s != [] && ClassHas(negated, items, s[0]) && GlobMatch(toks[1..], s[1..])
  }

  /** A compiled scope pattern: the regular expression and whether it is searched for or matched whole. */
  datatype Matcher = Substring(needle: string) | Glob(tokens: seq<Token>)

  /** `_compile_scope_pattern`. */
  function CompileScopePattern(p: string): (m: Matcher)
    ensures m.Substring? <==> !HasWildcard(p)
    ensures m.Substring? ==> m.needle == p
    ensures m.Glob? ==> m.tokens == Tokenize(p)
  {
    if HasWildcard(p) then Glob(Tokenize(p)) else Substring(p)
  }

  /** `_matches`: `search` for a substring pattern, `match` (anchored at both ends) for a glob. */
  predicate Matches(m: Matcher, url: string) {
    match m
    case Substring(needle) => Contains(url, needle)
    case Glob(tokens) => GlobMatch(tokens, url)
  }

  function CompileAll(ps: seq<string>): (r: seq<Matcher>)
    ensures |r| == |ps| && forall i :: 0 <= i < |ps| ==> r[i] == CompileScopePattern(ps[i])
  {
    seq(|ps|, i requires 0 <= i < |ps| => CompileScopePattern(ps[i]))
  }

  /** `any(_matches(...) for ...)`, evaluated left to right. */
  function AnyMatches(ms: seq<Matcher>, url: string): (r: bool)
    ensures r <==> exists i :: 0 <= i < |ms| && Matches(ms[i], url)
  {
    if ms == [] then false
    else if Matches(ms[0], url) then true
    else
      var rest := AnyMatches(ms[1..], url);
      assert forall i :: 1 <= i < |ms| ==> ms[i] == ms[1..][i - 1];
      rest
  }

  /** `_in_scope`. */
  function InScope(includes: seq<Matcher>, excludes: seq<Matcher>, url: string): (r: bool)
    ensures includes == [] ==> r
    ensures includes != [] ==>
              (r <==> (exists i :: 0 <= i < |includes| && Matches(includes[i], url))
                      && forall i :: 0 <= i < |excludes| ==> !Matches(excludes[i], url))
  {
    if includes == [] then true
    else AnyMatches(includes, url) && !AnyMatches(excludes, url)
  }

  /** A pattern without glob syntax matches exactly the URLs that contain it. */
  lemma PlainPatternIsSubstring(p: string, url: string)
    requires !HasWildcard(p)
    ensures Matches(CompileScopePattern(p), url) <==> exists k :: 0 <= k && MatchAt(url, k, p)
  {
  }

  /** The tokens of a pattern without glob syntax are its characters, one literal each. */
  function Literals(p: string): (r: seq<Token>)
    ensures |r| == |p| && forall i :: 0 <= i < |p| ==> r[i] == Lit(p[i])
  {
    seq(|p|, i requires 0 <= i < |p| => Lit(p[i]))
  }

  lemma {:induction false} TokenizePlain(p: string, rest: string)
    requires !HasWildcard(p)
    ensures Tokenize(p + rest) == Literals(p) + Tokenize(rest)
    decreases |p|
  {
    if p == [] {
      assert p + rest == rest;
      assert Literals(p) == [];
    } else {
      var t := p + rest;
      assert t[0] == p[0] && !IsWildcard(p[0]);
      assert t[1..] == p[1..] + rest;
      assert Tokenize(t) == [Lit(p[0])] + Tokenize(t[1..]);
      assert !HasWildcard(p[1..]) by {
        forall i | 0 <= i < |p[1..]| ensures !IsWildcard(p[1..][i]) {
          assert p[1..][i] == p[i + 1];
        }
      }
      TokenizePlain(p[1..], rest);
      assert Literals(p) == [Lit(p[0])] + Literals(p[1..]);
    }
  }

  /** Literal tokens match exactly their own text at the front of the string. */
  lemma {:induction false} LiteralsMatch(p: string, rest: seq<Token>, s: string)
    ensures GlobMatch(Literals(p) + rest, s) <==> StartsWith(s, p) && GlobMatch(rest, s[|p|..])
    decreases |p|
  {
    if p == [] {
      assert Literals(p) + rest == rest;
      assert s[..0] == p && s[0..] == s;
    } else {
      var toks := Literals(p) + rest;
      assert toks[0] == Lit(p[0]);
      assert toks[1..] == Literals(p[1..]) + rest;
      if s != [] {
        LiteralsMatch(p[1..], rest, s[1..]);
        if s[0] == p[0] {
          assert StartsWith(s, p) <==> StartsWith(s[1..], p[1..]) by {
            if |p| <= |s| {
              assert s[..|p|] == [s[0]] + s[1..][..|p| - 1];
              assert p == [p[0]] + p[1..];
            }
          }
          if |p| <= |s| {
            assert s[|p|..] == s[1..][|p| - 1..];
          }
        } else {
          assert !StartsWith(s, p) by {
            if |p| <= |s| {
              assert s[..|p|][0] != p[0];
            }
          }
        }
      }
    }
  }

  /** A trailing star matches every remainder. */
  lemma {:induction false} StarMatchesAll(s: string)
    ensures GlobMatch([Star], s)
    decreases |s|
  {
    assert [Star][1..] == [];
    if s != [] {
      StarMatchesAll(s[1..]);
    }
  }

  /** `*` puts every URL in scope. */
  lemma EverythingMatchesStar(url: string)
    ensures Matches(CompileScopePattern("*"), url)
  {
    assert IsWildcard("*"[0]);
    assert Tokenize("*") == [Star];
    StarMatchesAll(url);
  }

  /**
   * A glob without wildcards other than a final `*` is a prefix test:
   * `p*` matches exactly the URLs starting with `p`.
   */
  lemma PrefixPattern(p: string, url: string)
    requires !HasWildcard(p)
    ensures Matches(CompileScopePattern(p + "*"), url) <==> StartsWith(url, p)
  {
    assert IsWildcard((p + "*")[|p|]);
    TokenizePlain(p, "*");
    assert Tokenize("*") == [Star];
    LiteralsMatch(p, [Star], url);
    if StartsWith(url, p) {
      StarMatchesAll(url[|p|..]);
    }
  }

  /**
   * The star is the glob's only way to skip text: `*` followed by `rest`
   * matches `s` exactly when `rest` matches some suffix of `s`.
   */
  lemma {:induction false} StarSplits(rest: seq<Token>, s: string)
    ensures GlobMatch([Star] + rest, s) <==> exists k :: 0 <= k <= |s| && GlobMatch(rest, s[k..])
    decreases |s|
  {
    var toks := [Star] + rest;
    assert toks[0] == Star && toks[1..] == rest;
    assert s[0..] == s;
    if s == [] {
      assert GlobMatch(toks, s) == GlobMatch(rest, s);
    } else {
      assert GlobMatch(toks, s) == (GlobMatch(rest, s) || GlobMatch(toks, s[1..]));
      StarSplits(rest, s[1..]);
      if GlobMatch(toks, s[1..]) {
        var k :| 0 <= k <= |s[1..]| && GlobMatch(rest, s[1..][k..]);
        assert s[1..][k..] == s[k + 1..];
      }
      if exists k :: 0 <= k <= |s| && GlobMatch(rest, s[k..]) {
        var k :| 0 <= k <= |s| && GlobMatch(rest, s[k..]);
        if k > 0 {
          assert s[k..] == s[1..][k - 1..];
        }
      }
    }
  }

  /** `?` matches exactly the one-character URLs. */
  lemma QuestionMarkIsOneChar(url: string)
    ensures Matches(CompileScopePattern("?"), url) <==> |url| == 1
  {
    assert IsWildcard("?"[0]);
    assert Tokenize("?") == [AnyChar];
    assert [AnyChar][1..] == [];
    assert GlobMatch([AnyChar], url) <==> url != [] && GlobMatch([], url[1..]);
  }

  /** A negated bracket expression accepts a character exactly when its plain form rejects it. */
  lemma NegatedClass(body: string, c: char)
    requires body == [] || body[0] != '!'
    ensures GlobMatch([ClassToken("!" + body)], [c]) <==> !GlobMatch([ClassToken(body)], [c])
  {
    assert ("!" + body)[1..] == body;
    assert [c][1..] == [];
    var neg := ClassToken("!" + body);
    var pos := ClassToken(body);
    assert [neg][1..] == [] && [pos][1..] == [];
    assert GlobMatch([neg], [c]) <==> ClassHas(true, ClassItems(body), c) && GlobMatch([], []);
    assert GlobMatch([pos], [c]) <==> ClassHas(false, ClassItems(body), c) && GlobMatch([], []);
  }

  /** The initial scope (include `*`, no exclude) accepts every URL. */
  lemma InitialScopeAcceptsAll(url: string)
    ensures InScope([CompileScopePattern("*")], [], url)
  {
    EverythingMatchesStar(url);
    assert Matches([CompileScopePattern("*")][0], url);
  }

  /** An exclude pattern that matches takes the URL out of scope whatever the include patterns say. */
  lemma ExcludeWins(includes: seq<Matcher>, excludes: seq<Matcher>, url: string, i: nat)
    requires includes != [] && i < |excludes| && Matches(excludes[i], url)
    ensures !InScope(includes, excludes, url)
  {
  }

  /** A pattern as cleaning leaves it: not blank, and with no whitespace at either end. */
  predicate Trimmed(p: string) {
    p != [] && !IsSpace(p[0]) && !IsSpace(p[|p| - 1])
  }

  /** `p.strip()` as a one-element list, or nothing when it is blank. */
  function StrippedNonBlank(p: string): (r: seq<string>)
    ensures |r| <= 1
    ensures r == [] <==> Strip(p) == []
    ensures r != [] ==> r[0] == Strip(p)
    ensures forall i :: 0 <= i < |r| ==> Trimmed(r[i])
  {
    var s := Strip(p);
    if s == [] then [] else [s]
  }

  /**
   * `[p.strip() for p in ps if p.strip()]`: the stripped patterns that are
   * not blank, in their original order.
   */
  function CleanPatterns(ps: seq<string>): (r: seq<string>)
    ensures |r| <= |ps|
    ensures forall i :: 0 <= i < |r| ==> Trimmed(r[i])
  {
    if ps == [] then []
    else StrippedNonBlank(ps[0]) + CleanPatterns(ps[1..])
  }

  /** Cleaning works pattern by pattern, so the patterns it keeps stay in their order. */
  lemma {:induction false} CleanPatternsAppend(a: seq<string>, b: seq<string>)
    ensures CleanPatterns(a + b) == CleanPatterns(a) + CleanPatterns(b)
    decreases |a|
  {
    if a == [] {
      assert a + b == b;
    } else {
      assert (a + b)[0] == a[0] && (a + b)[1..] == a[1..] + b;
      CleanPatternsAppend(a[1..], b);
    }
  }

  /** Clean patterns come through cleaning unchanged. */
  lemma {:induction false} CleanPatternsNoop(ps: seq<string>)
    requires forall i :: 0 <= i < |ps| ==> Trimmed(ps[i])
    ensures CleanPatterns(ps) == ps
    decreases |ps|
  {
    if ps != [] {
      StripNoop(ps[0]);
      CleanPatternsNoop(ps[1..]);
    }
  }

  /** Cleaning is idempotent. */
  lemma CleanPatternsIdempotent(ps: seq<string>)
    ensures CleanPatterns(CleanPatterns(ps)) == CleanPatterns(ps)
  {
    CleanPatternsNoop(CleanPatterns(ps));
  }

  /** `... or ["*"]`: the include list, never empty. */
  function IncludeOrAll(ps: seq<string>): (r: seq<string>)
    ensures r != []
    ensures CleanPatterns(ps) != [] ==> r == CleanPatterns(ps)
    ensures CleanPatterns(ps) == [] ==> r == ["*"]
  {
    var c := CleanPatterns(ps);
    if c == [] then ["*"] else c
  }
}
