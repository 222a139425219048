/**
 * The charset parameter of a Content-Type value (section 8.3.2 of RFC 9110),
 * found the way the program does: the first case-insensitive match of the
 * regular expression `charset=([^;]+)`, trimmed of whitespace, then of double
 * quotes, then of single quotes, with `utf-8` as the fallback.
 */
module Charset {
  import opened Base
  import opened Text

  const Key := "charset="
  const DefaultCharset := "utf-8"

  /** The regular expression matches at `k`: the key, then at least one character other than `;`. */
  predicate RegexMatchAt(ct: string, k: nat) {
    FoldMatchAt(ct, k, Key) && k + |Key| < |ct| && ct[k + |Key|] != ';'
  }

  /** The leftmost match at or after `from` (what `re.search` finds). */
  function SearchFrom(ct: string, from: nat): (r: Option<nat>)
    decreases |ct| - from
    ensures r.Some? ==> from <= r.value && RegexMatchAt(ct, r.value)
    ensures r.Some? ==> forall k :: from <= k < r.value ==> !RegexMatchAt(ct, k)
    ensures r.None? ==> forall k :: from <= k ==> !RegexMatchAt(ct, k)
  {
    if from + |Key| >= |ct| then None
    else if RegexMatchAt(ct, from) then Some(from)
    else SearchFrom(ct, from + 1)
  }

  /**
   * `match.group(1)`: the longest run of non-`;` characters after the key,
   * the text that follows the key up to the next `;` or the end.
   */
  function GroupAt(ct: string, k: nat): (g: string)
    requires RegexMatchAt(ct, k)
    ensures g != [] && forall i :: 0 <= i < |g| ==> g[i] != ';'
    ensures k + |Key| + |g| <= |ct| && g == ct[k + |Key|..k + |Key| + |g|]
    ensures k + |Key| + |g| == |ct| || ct[k + |Key| + |g|] == ';'
  {
    var start := k + |Key|;
    match FindChar(ct, ';', start)
    case None => ct[start..]
    case Some(e) => ct[start..e]
  }

  predicate IsDoubleQuote(c: char) { c == '"' }

  predicate IsSingleQuote(c: char) { c == '\'' }

  /** `.strip().strip('"').strip("'")`. */
  function CleanValue(v: string): string {
    Trim(Trim(Strip(v), IsDoubleQuote), IsSingleQuote)
  }

  /**
   * The charset named by a Content-Type value. It is never empty, holds no
   * `;` and neither starts nor ends with a single quote.
   */
  function CharsetFromContentType(ct: Option<string>): (r: string)
    ensures r != []
    ensures forall i :: 0 <= i < |r| ==> r[i] != ';'
    ensures r[0] != '\'' && r[|r| - 1] != '\''
    ensures ct.None? || SearchFrom(ct.value, 0).None? ==> r == DefaultCharset
  {
    match ct
    case None => DefaultCharset
    case Some(s) =>
      match SearchFrom(s, 0)
      case None => DefaultCharset
      case Some(k) =>
        var g := GroupAt(s, k);
        var c := CleanValue(g);
        CleanValueNoSemicolon(g);
        if c == [] then DefaultCharset else c
  }

  lemma CleanValueNoSemicolon(v: string)
    requires forall i :: 0 <= i < |v| ==> v[i] != ';'
    ensures forall i :: 0 <= i < |CleanValue(v)| ==> CleanValue(v)[i] != ';'
  {
    TrimKeepsAbsent(v, IsSpace, ';');
    TrimKeepsAbsent(Strip(v), IsDoubleQuote, ';');
    TrimKeepsAbsent(Trim(Strip(v), IsDoubleQuote), IsSingleQuote, ';');
  }

  /** No match of the key can start inside text that holds no `=`, nor straddle its end. */
  lemma {:induction false} NoMatchBefore(p: string, rest: string, k: nat)
    requires forall i :: 0 <= i < |p| ==> p[i] != '='
    requires k < |p|
    ensures !FoldMatchAt(p + Key + rest, k, Key)
  {
    var s := p + Key + rest;
    if k + 7 < |p| {
      assert s[k + 7] == p[k + 7];
    } else {
      assert s[k + 7] == Key[7 - (|p| - k)];
    }
    assert FoldChar(s[k + 7]) != Key[7];
  }

  /** The key followed by a character other than `;` is a match. */
  lemma KeyMatchesAt(p: string, w: string)
    requires w != [] && w[0] != ';'
    ensures RegexMatchAt(p + Key + w, |p|)
  {
    var s := p + Key + w;
    var k := |p|;
    assert s[k..k + |Key|] == Key;
    assert forall j :: 0 <= j < |Key| ==> FoldChar(Key[j]) == Key[j];
    assert s[k + |Key|] == w[0];
  }

  /** In `p + "charset=" + w` with no `=` in `p` and `w` not starting with `;`, the search stops right after `p`. */
  lemma SearchFindsKey(p: string, w: string)
    requires forall i :: 0 <= i < |p| ==> p[i] != '='
    requires w != [] && w[0] != ';'
    ensures SearchFrom(p + Key + w, 0) == Some(|p|)
  {
    var s := p + Key + w;
    forall k: nat | k < |p| ensures !RegexMatchAt(s, k) {
      NoMatchBefore(p, w, k);
    }
    KeyMatchesAt(p, w);
  }

  /** After the key, the group is the value up to the next parameter's `;`. */
  lemma GroupOfPlainValue(p: string, v: string, rest: string)
    requires v != [] && forall i :: 0 <= i < |v| ==> v[i] != ';'
    requires rest == [] || rest[0] == ';'
    ensures RegexMatchAt(p + Key + v + rest, |p|)
    ensures GroupAt(p + Key + v + rest, |p|) == v
  {
    var s := p + Key + v + rest;
    var start := |p| + |Key|;
    assert s == p + Key + (v + rest);
    assert s[start..] == v + rest;
    KeyMatchesAt(p, v + rest);
    GroupRun(s, start, v, rest);
  }

  lemma GroupRun(s: string, start: nat, v: string, rest: string)
    requires start <= |s| && s[start..] == v + rest
    requires forall i :: 0 <= i < |v| ==> v[i] != ';'
    requires rest == [] || rest[0] == ';'
    ensures start + |v| <= |s| && s[start..start + |v|] == v
    ensures FindChar(s, ';', start) == if rest == [] then None else Some(start + |v|)
  {
    assert forall i :: start <= i < start + |v| ==> s[i] == s[start..][i - start] == v[i - start];
    if rest != [] {
      assert s[start + |v|] == s[start..][|v|] == ';';
    }
    FindCharRun(s, ';', start, |v|);
    assert s[start..start + |v|] == s[start..][..|v|];
  }

  /**
   * The charset of any Content-Type whose first match is `charset=` followed
   * by `v`: `v` is the text up to the next `;` or the end, and the charset is
   * `v` stripped of whitespace, then of double quotes, then of single quotes,
   * or `utf-8` when nothing is left.
   */
  lemma CharsetOfParameter(p: string, v: string, rest: string)
    requires v != [] && forall i :: 0 <= i < |v| ==> v[i] != ';'
    requires rest == [] || rest[0] == ';'
    requires forall k :: 0 <= k < |p| ==> !RegexMatchAt(p + Key + v + rest, k)
    ensures CharsetFromContentType(Some(p + Key + v + rest))
            == if CleanValue(v) == [] then DefaultCharset else CleanValue(v)
  {
    var s := p + Key + v + rest;
    GroupOfPlainValue(p, v, rest);
    var m := SearchFrom(s, 0);
    assert m.Some? && m.value <= |p|;
    assert m == Some(|p|);
  }

  /**
   * A Content-Type whose charset parameter is written plainly is read back
   * exactly: `p + "charset=" + v + rest` gives `v` when `p` holds no `=`, `v`
   * is non-empty, holds no `;` and has no whitespace or quote at either end,
   * and `rest` is empty or starts the next parameter.
   */
  lemma CharsetOfPlainParameter(p: string, v: string, rest: string)
    requires forall i :: 0 <= i < |p| ==> p[i] != '='
    requires v != [] && forall i :: 0 <= i < |v| ==> v[i] != ';'
    requires !IsSpace(v[0]) && !IsSpace(v[|v| - 1])
    requires v[0] != '"' && v[|v| - 1] != '"' && v[0] != '\'' && v[|v| - 1] != '\''
    requires rest == [] || rest[0] == ';'
    ensures CharsetFromContentType(Some(p + Key + v + rest)) == v
  {
    var s := p + Key + v + rest;
    assert s == p + Key + (v + rest);
    forall k: nat | k < |p| ensures !RegexMatchAt(s, k) {
      NoMatchBefore(p, v + rest, k);
    }
    CharsetOfParameter(p, v, rest);
    CleanValueNoop(v);
  }

  /** A blank charset value, such as `charset= ;`, falls back to `utf-8`. */
  lemma BlankCharsetDefaults(p: string, v: string, rest: string)
    requires v != [] && forall i :: 0 <= i < |v| ==> IsSpace(v[i])
    requires rest == [] || rest[0] == ';'
    requires forall k :: 0 <= k < |p| ==> !RegexMatchAt(p + Key + v + rest, k)
    ensures CharsetFromContentType(Some(p + Key + v + rest)) == DefaultCharset
  {
    assert forall i :: 0 <= i < |v| ==> v[i] != ';';
    TrimAllDropped(v, IsSpace);
    CharsetOfParameter(p, v, rest);
  }

  /** A value wrapped in double quotes is read without them. */
  lemma QuotedCharset(p: string, v: string, rest: string)
    requires v != [] && forall i :: 0 <= i < |v| ==> v[i] != ';'
    requires !IsSpace(v[0]) && !IsSpace(v[|v| - 1])
    requires v[0] != '"' && v[|v| - 1] != '"' && v[0] != '\'' && v[|v| - 1] != '\''
    requires rest == [] || rest[0] == ';'
    requires forall k :: 0 <= k < |p| ==> !RegexMatchAt(p + Key + ("\"" + v + "\"") + rest, k)
    ensures CharsetFromContentType(Some(p + Key + ("\"" + v + "\"") + rest)) == v
  {
    var q := "\"" + v + "\"";
    assert forall i :: 0 <= i < |q| ==> q[i] != ';' by {
      assert forall i :: 1 <= i < |q| - 1 ==> q[i] == v[i - 1];
    }
    assert CleanValue(q) == v by {
      StripNoop(q);
      TrimQuotes(v);
      TrimStartNoop(v, IsSingleQuote);
      TrimEndNoop(v, IsSingleQuote);
    }
    CharsetOfParameter(p, q, rest);
  }

  lemma TrimQuotes(v: string)
    requires v != [] && v[0] != '"' && v[|v| - 1] != '"'
    ensures Trim("\"" + v + "\"", IsDoubleQuote) == v
  {
    var q := "\"" + v + "\"";
    assert q[1..] == v + "\"";
    TrimStartNoop(v + "\"", IsDoubleQuote);
    assert (v + "\"")[..|v|] == v;
    TrimEndNoop(v, IsDoubleQuote);
  }

  /** A value with no whitespace or quote at either end is left as it is. */
  lemma CleanValueNoop(v: string)
    requires v != []
    requires !IsSpace(v[0]) && !IsSpace(v[|v| - 1])
    requires v[0] != '"' && v[|v| - 1] != '"' && v[0] != '\'' && v[|v| - 1] != '\''
    ensures CleanValue(v) == v
  {
    StripNoop(v);
    TrimStartNoop(v, IsDoubleQuote);
    TrimEndNoop(v, IsDoubleQuote);
    TrimStartNoop(v, IsSingleQuote);
    TrimEndNoop(v, IsSingleQuote);
  }
}
