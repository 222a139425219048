/**
 * The repeater's text form of a header list: one `name: value` per line. The
 * parser skips blank lines and lines without a colon, splits each remaining
 * line at its first colon, strips both halves and drops the hop-by-hop names
 * a client must not forward. The printer is the inverse on well-formed lists.
 * The HTTP round trip itself is left out; what is kept is how the request is
 * prepared and how the reply is summarised.
 */
module Repeater {
  import opened Base
  import opened Text
  import opened Headers
  import opened Models

  /** Request headers never forwarded by the repeater (`content-encoding` is not among them). */
  const DropRequestHeaders: set<string> :=
    {"connection", "proxy-connection", "keep-alive", "te", "trailer", "transfer-encoding", "upgrade", "content-length"}

  /** How many body bytes the text preview of a reply decodes. */
  const PreviewLimit := 8192

  /** How many body bytes the base64 prefix of a reply encodes. */
  const B64Limit := 65536

  /** `key.lower() in DROP_REQUEST_HEADERS`. */
  predicate Dropped(name: string) {
    Lower(name) in DropRequestHeaders
  }

  predicate NoColon(s: string) {
    forall j :: 0 <= j < |s| ==> s[j] != ':'
  }

  /** Empty, or without whitespace at either end: what `str.strip()` leaves behind. */
  predicate Bare(s: string) {
    s == [] || (!IsSpace(s[0]) && !IsSpace(s[|s| - 1]))
  }

  /**
   * What one line of the text contributes: nothing for a blank line, a line
   * without a colon or a dropped name, otherwise the stripped text before the
   * first colon and the stripped text after it.
   */
  function ParseLine(raw: string): (r: Option<Header>)
    ensures NoColon(raw) ==> r.None?
    ensures r.Some? ==> NoColon(r.value.0) && !Dropped(r.value.0)
    ensures r.Some? ==> Bare(r.value.0) && Bare(r.value.1)
  {
    var line := Strip(raw);
    StripKeepsNoColon(raw);
    if line == [] then None else SplitAtFirstColon(line)
  }

  /** A stripped, non-blank line split at its first colon, both halves stripped, unless the name is dropped. */
  function SplitAtFirstColon(line: string): (r: Option<Header>)
    ensures NoColon(line) ==> r.None?
    ensures r.Some? ==> NoColon(r.value.0) && !Dropped(r.value.0)
    ensures r.Some? ==> Bare(r.value.0) && Bare(r.value.1)
  {
    match FindChar(line, ':', 0)
    case None => None
    case Some(i) =>
      var key := Strip(line[..i]);
      var value := Strip(line[i + 1..]);
      KeyBeforeColon(line, i);
      StripIsBare(line[i + 1..]);
      if Dropped(key) then None
      else Some((key, value))
  }

  /** The stripped text before the first colon is a bare name without a colon. */
  lemma KeyBeforeColon(line: string, i: nat)
    requires i <= |line| && forall k :: 0 <= k < i ==> line[k] != ':'
    ensures NoColon(Strip(line[..i])) && Bare(Strip(line[..i]))
  {
    assert NoColon(line[..i]);
    StripKeepsNoColon(line[..i]);
    StripIsBare(line[..i]);
  }

  lemma StripIsBare(s: string)
    ensures Bare(Strip(s))
  {
  }

  lemma StripKeepsNoColon(s: string)
    ensures NoColon(s) ==> NoColon(Strip(s))
  {
    if NoColon(s) {
      TrimKeepsAbsent(s, IsSpace, ':');
    }
  }

  /** The pairs the parser yields for a sequence of lines, in line order, duplicates kept. */
  function ParsedHeaders(lines: seq<string>): (r: seq<Header>)
    ensures |r| <= |lines|
  {
    ParsedWith(ParseLine, lines)
  }

  /** Line by line with a given line parser: each line contributes its header, or nothing. */
  function ParsedWith(parse: string -> Option<Header>, lines: seq<string>): (r: seq<Header>)
    ensures |r| <= |lines|
  {
    if lines == [] then []
    else
      ParsedWith(parse, lines[..|lines| - 1]) + Contribution(parse(lines[|lines| - 1]))
  }

  function Contribution(o: Option<Header>): seq<Header> {
    match o
    case None => []
    case Some(h) => [h]
  }

  /** A parsed name: no colon in it, and not one of the dropped names. */
  predicate CleanName(h: Header) {
    NoColon(h.0) && !Dropped(h.0)
  }

  predicate AllClean(hs: seq<Header>) {
    forall i :: 0 <= i < |hs| ==> CleanName(hs[i])
  }

  /** No parsed name holds a colon or is one of the dropped names. */
  lemma ParsedHeadersClean(lines: seq<string>)
    ensures AllClean(ParsedHeaders(lines))
  {
    forall line | true
      ensures ParseLine(line).Some? ==> CleanName(ParseLine(line).value)
    {
    }
    ParsedWithClean(ParseLine, lines);
  }

  lemma {:induction false} ParsedWithClean(parse: string -> Option<Header>, lines: seq<string>)
    requires forall line :: parse(line).Some? ==> CleanName(parse(line).value)
    ensures AllClean(ParsedWith(parse, lines))
    decreases |lines|
  {
    if lines != [] {
      var init := lines[..|lines| - 1];
      ParsedWithClean(parse, init);
      AllCleanAppend(ParsedWith(parse, init), Contribution(parse(lines[|lines| - 1])));
    }
  }

  lemma AllCleanAppend(a: seq<Header>, b: seq<Header>)
    requires AllClean(a) && AllClean(b)
    ensures AllClean(a + b)
  {
    assert forall i :: 0 <= i < |a + b| ==> (a + b)[i] == if i < |a| then a[i] else b[i - |a|];
  }

  /** Parsing line by line: the headers of one block are the headers of its parts, in order. */
  lemma ParsedHeadersAppend(a: seq<string>, b: seq<string>)
    ensures ParsedHeaders(a + b) == ParsedHeaders(a) + ParsedHeaders(b)
  {
    ParsedWithAppend(ParseLine, a, b);
  }

  lemma {:induction false} ParsedWithAppend(parse: string -> Option<Header>, a: seq<string>, b: seq<string>)
    ensures ParsedWith(parse, a + b) == ParsedWith(parse, a) + ParsedWith(parse, b)
    decreases |b|
  {
    if b == [] {
      assert a + b == a;
    } else {
      var init, last := b[..|b| - 1], b[|b| - 1];
      assert (a + b)[..|a + b| - 1] == a + init;
      assert (a + b)[|a + b| - 1] == last;
      ParsedWithAppend(parse, a, init);
    }
  }

  lemma ParsedHeadersStep(lines: seq<string>, i: nat)
    requires i < |lines|
    ensures ParsedHeaders(lines[..i + 1]) == ParsedHeaders(lines[..i]) + Contribution(ParseLine(lines[i]))
  {
    assert lines[..i + 1][..i] == lines[..i];
  }

  /** The parser over the lines of a text, one line at a time. */
  method ParseHeadersText(text: string) returns (out: seq<Header>)
    ensures out == ParsedHeaders(SplitLines(text))
  {
    var lines := SplitLines(text);
    out := [];
    var i := 0;
    while i < |lines|
      invariant 0 <= i <= |lines|
      invariant out == ParsedHeaders(lines[..i])
    {
      ParsedHeadersStep(lines, i);
      match ParseLine(lines[i]) {
        case Some(h) =>
          out := out + [h];
        case None =>
      }
      i := i + 1;
    }
    assert lines[..|lines|] == lines;
  }

  function FormatLine(h: Header): string {
    h.0 + ": " + h.1
  }

  function FormatLines(hs: seq<Header>): (r: seq<string>)
    ensures |r| == |hs| && forall i :: 0 <= i < |hs| ==> r[i] == FormatLine(hs[i])
  {
    seq(|hs|, i requires 0 <= i < |hs| => FormatLine(hs[i]))
  }

  /** The printed list: empty only for no headers, and ending with the last value (no trailing newline). */
  function HeadersText(hs: seq<Header>): (r: string)
    ensures r == [] <==> hs == []
    ensures hs != [] ==> StartsWith(r, hs[0].0 + ": ") && EndsWith(r, hs[|hs| - 1].1)
  {
    JoinEnds("\n", FormatLines(hs));
    FormattedEnds(hs);
    Join("\n", FormatLines(hs))
  }

  lemma FormattedEnds(hs: seq<Header>)
    ensures hs != [] ==> StartsWith(FormatLines(hs)[0], hs[0].0 + ": ")
    ensures hs != [] ==> EndsWith(FormatLines(hs)[|hs| - 1], hs[|hs| - 1].1)
  {
    if hs == [] { return; }
    var lines := FormatLines(hs);
    assert lines[0][..|hs[0].0 + ": "|] == hs[0].0 + ": ";
    var last := lines[|lines| - 1];
    assert last[|last| - |hs[|hs| - 1].1|..] == hs[|hs| - 1].1;
  }

  /** A join starts with its first part and ends with its last one. */
  lemma {:induction false} JoinEnds(sep: string, parts: seq<string>)
    ensures parts != [] ==> StartsWith(Join(sep, parts), parts[0])
    ensures parts != [] ==> EndsWith(Join(sep, parts), parts[|parts| - 1])
    ensures parts == [] ==> Join(sep, parts) == []
    ensures |parts| == 1 ==> Join(sep, parts) == parts[0]
  {
    if |parts| > 1 {
      JoinEnds(sep, parts[1..]);
      var rest := Join(sep, parts[1..]);
      var j := parts[0] + sep + rest;
      assert j[..|parts[0]|] == parts[0];
      assert j[|j| - |rest|..] == rest;
      var last := parts[|parts| - 1];
      assert last == parts[1..][|parts[1..]| - 1];
      assert j[|j| - |last|..] == rest[|rest| - |last|..];
    }
  }

  /** Stripping `" " + v` gives back a stripped `v`. */
  lemma StripAfterSpace(v: string)
    requires Bare(v)
    ensures Strip(" " + v) == v
  {
    TrimStartSkips(' ', v, IsSpace);
    TrimStartNoop(v, IsSpace);
    TrimEndNoop(v, IsSpace);
  }

  lemma TrimStartSkips(c: char, s: string, drop: char -> bool)
    requires drop(c)
    ensures TrimStart([c] + s, drop) == TrimStart(s, drop)
  {
    assert ([c] + s)[1..] == s;
  }

  /** `k + ":"` and `k + ": "` both strip to `k + ":"` for a stripped `k`. */
  lemma StripColonSpace(k: string)
    requires Bare(k)
    ensures Strip(k + ": ") == k + ":"
  {
    var s := k + ": ";
    TrimStartNoop(s, IsSpace);
    assert s[..|s| - 1] == k + ":";
    TrimEndNoop(k + ":", IsSpace);
  }

  /** The split of a line `k + ":" + rest` with no colon in `k`. */
  lemma SplitAtColon(line: string, k: string, rest: string)
    requires line == k + ":" + rest && NoColon(k) && Bare(k)
    ensures SplitAtFirstColon(line) == if Dropped(k) then None else Some((k, Strip(rest)))
  {
    FirstColonAfter(k, rest);
    StripNoop(k);
    SplitAtKnownColon(line, |k|, k);
  }

  lemma SplitAtKnownColon(line: string, i: nat, k: string)
    requires FindChar(line, ':', 0) == Some(i) && Strip(line[..i]) == k
    ensures SplitAtFirstColon(line) == if Dropped(k) then None else Some((k, Strip(line[i + 1..])))
  {
  }

  lemma FirstColonAfter(k: string, rest: string)
    requires NoColon(k)
    ensures FindChar(k + ":" + rest, ':', 0) == Some(|k|)
    ensures (k + ":" + rest)[..|k|] == k && (k + ":" + rest)[|k| + 1..] == rest
  {
    var line := k + ":" + rest;
    assert forall i :: 0 <= i < |k| ==> line[i] == k[i];
    FindCharRun(line, ':', 0, |k|);
  }

  /** One printed line parses back to its pair, unless its name is dropped. */
  lemma ParseFormatted(k: string, v: string)
    requires NoColon(k) && Bare(k) && Bare(v)
    ensures ParseLine(FormatLine((k, v))) == if Dropped(k) then None else Some((k, v))
  {
    if v == [] {
      ParseFormattedBare(k);
    } else {
      ParseFormattedValue(k, v);
    }
  }

  /** A header with an empty value prints as `k: ` and reads back with the empty value. */
  lemma ParseFormattedBare(k: string)
    requires NoColon(k) && Bare(k)
    ensures ParseLine(FormatLine((k, []))) == if Dropped(k) then None else Some((k, []))
  {
    assert FormatLine((k, [])) == k + ": ";
    StripColonSpace(k);
    var s := k + ":";
    assert s == k + ":" + [];
    StripNoop(s);
    SplitAtColon(s, k, []);
    assert Strip([]) == [];
  }

  lemma ParseFormattedValue(k: string, v: string)
    requires NoColon(k) && Bare(k) && Bare(v) && v != []
    ensures ParseLine(FormatLine((k, v))) == if Dropped(k) then None else Some((k, v))
  {
    var line := k + ": " + v;
    assert line == k + ":" + (" " + v);
    StripNoop(line);
    SplitAtColon(line, k, " " + v);
    StripAfterSpace(v);
  }

  lemma NoLineBreakConcat(a: string, b: string)
    requires NoLineBreak(a) && NoLineBreak(b)
    ensures NoLineBreak(a + b)
  {
    assert forall j :: 0 <= j < |a + b| ==> (a + b)[j] == if j < |a| then a[j] else b[j - |a|];
  }

  lemma FormatLineUnbroken(h: Header)
    requires NoLineBreak(h.0) && NoLineBreak(h.1)
    ensures FormatLine(h) != [] && NoLineBreak(FormatLine(h))
  {
    assert NoLineBreak(": ");
    NoLineBreakConcat(h.0, ": ");
    NoLineBreakConcat(h.0 + ": ", h.1);
  }

  /** A pair the printer and the parser agree on: a name without colons, and no line breaks or outer whitespace. */
  predicate Printable(h: Header) {
    NoColon(h.0) && Bare(h.0) && Bare(h.1) && NoLineBreak(h.0) && NoLineBreak(h.1)
  }

  lemma {:induction false} ParseFormattedLines(hs: seq<Header>)
    requires forall i :: 0 <= i < |hs| ==> Printable(hs[i])
    ensures ParsedHeaders(FormatLines(hs)) == RemoveNamed(hs, DropRequestHeaders)
    decreases |hs|
  {
    if hs != [] {
      var init := hs[..|hs| - 1];
      var last := hs[|hs| - 1];
      assert FormatLines(hs)[..|hs| - 1] == FormatLines(init);
      ParseFormattedLines(init);
      ParseFormatted(last.0, last.1);
    }
  }

  /**
   * Printing a well-formed list and parsing the text back gives the list
   * without its dropped names: same pairs, same order, duplicates kept, and
   * values may hold colons.
   */
  lemma HeadersTextParsesBack(hs: seq<Header>)
    requires forall i :: 0 <= i < |hs| ==> Printable(hs[i])
    ensures ParsedHeaders(SplitLines(HeadersText(hs))) == RemoveNamed(hs, DropRequestHeaders)
  {
    var lines := FormatLines(hs);
    forall i | 0 <= i < |lines|
      ensures lines[i] != [] && NoLineBreak(lines[i])
    {
      FormatLineUnbroken(hs[i]);
    }
    SplitJoinedLines(lines);
    ParseFormattedLines(hs);
  }

  /** The round trip: with no dropped name in the list, parsing the printed text gives the list back. */
  lemma HeadersTextRoundTrip(hs: seq<Header>)
    requires forall i :: 0 <= i < |hs| ==> Printable(hs[i]) && !Dropped(hs[i].0)
    ensures ParsedHeaders(SplitLines(HeadersText(hs))) == hs
  {
    HeadersTextParsesBack(hs);
    RemoveNamedNothing(hs, DropRequestHeaders);
  }

  /** The outgoing request the repeater sends (the transfer itself is not modelled). */
  datatype RepeatRequest = RepeatRequest(httpMethod: string, url: string, headers: seq<Header>, content: Bytes)

  /**
   * The request built from the editor's fields: the method upper-cased, the
   * parsed headers, the body encoded by `encode` (UTF-8 with replacement).
   */
  function PrepareRepeat(httpMethod: string, url: string, headersText: string, bodyText: string, encode: string -> Bytes): (r: RepeatRequest)
    ensures r.httpMethod == Upper(httpMethod) && r.url == url && r.content == encode(bodyText)
    ensures forall i :: 0 <= i < |r.headers| ==> !Dropped(r.headers[i].0)
    ensures r.headers == ParsedHeaders(SplitLines(headersText))
  {
    ParsedHeadersClean(SplitLines(headersText));
    RepeatRequest(Upper(httpMethod), url, ParsedHeaders(SplitLines(headersText)), encode(bodyText))
  }

  /** The foreign codecs the reply summary uses: UTF-8 decoding with replacement, and base64. */
  datatype ReplyCodecs = ReplyCodecs(decode: Bytes -> string, b64encode: Bytes -> string)

  /** `data[:limit].decode("utf-8", "replace")`. */
  function PreviewText(data: Bytes, limit: nat, decode: Bytes -> string): string {
    decode(Prefix(data, limit))
  }

  /** `base64.b64encode(data[:limit])`. */
  function B64Prefix(data: Bytes, limit: nat, b64encode: Bytes -> string): string {
    b64encode(Prefix(data, limit))
  }

  /**
   * The summary of an upstream reply: its status, its headers printed one per
   * line, a preview of the first 8192 bytes, the first 64 KiB in base64 and
   * the full length.
   */
  function MakeRepeatResponse(status: int, respHeaders: seq<Header>, raw: Bytes, codecs: ReplyCodecs): (r: RepeatResponse)
    ensures r.status == status && r.bytes == |raw|
    ensures r.headers == HeadersText(respHeaders)
    ensures exists p :: p <= raw && |p| == Min(|raw|, PreviewLimit) && r.preview == codecs.decode(p)
    ensures exists p :: p <= raw && |p| == Min(|raw|, B64Limit) && r.bodyFirst64kB64 == codecs.b64encode(p)
  {
    RepeatResponse(
      status,
      HeadersText(respHeaders),
      PreviewText(raw, PreviewLimit, codecs.decode),
      B64Prefix(raw, B64Limit, codecs.b64encode),
      |raw|)
  }

  /** Bytes past the first 64 KiB change nothing in the summary but its length. */
  lemma ReplySummaryIgnoresTail(status: int, respHeaders: seq<Header>, raw: Bytes, tail: Bytes, codecs: ReplyCodecs)
    requires |raw| >= B64Limit
    ensures MakeRepeatResponse(status, respHeaders, raw + tail, codecs)
         == MakeRepeatResponse(status, respHeaders, raw, codecs).(bytes := |raw| + |tail|)
  {
    assert Prefix(raw + tail, PreviewLimit) == Prefix(raw, PreviewLimit) by {
      assert (raw + tail)[..PreviewLimit] == raw[..PreviewLimit];
    }
    assert Prefix(raw + tail, B64Limit) == Prefix(raw, B64Limit) by {
      assert (raw + tail)[..B64Limit] == raw[..B64Limit];
    }
  }

  /** The printed headers of a well-formed reply parse back to its headers less the dropped names. */
  lemma ReplyHeadersParseBack(status: int, respHeaders: seq<Header>, raw: Bytes, codecs: ReplyCodecs)
    requires forall i :: 0 <= i < |respHeaders| ==> Printable(respHeaders[i])
    ensures ParsedHeaders(SplitLines(MakeRepeatResponse(status, respHeaders, raw, codecs).headers))
         == RemoveNamed(respHeaders, DropRequestHeaders)
  {
    HeadersTextParsesBack(respHeaders);
  }
}
