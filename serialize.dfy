/**
 * How the capturing agent turns an intercepted exchange into a `FlowCompact`:
 * header lists (request cookies collapsed into one header, as section 5.4 of
 * RFC 6265 has user agents send them), text previews, and the size caps that
 * decide whether a body is kept as base64 (section 4 of RFC 4648). Byte
 * decoding, base64 and JSON pretty-printing are library code passed in as
 * functions.
 */
module Serialize {
  import opened Base
  import opened Text
  import opened Headers
  import opened Charset
  import opened Models

  const MaxPreview: nat := 8192
  const MaxReqBodyStore: nat := 256 * 1024
  const MaxRespBodyStore: nat := 2 * 1024 * 1024
  const MaxFormatBytes: nat := 256 * 1024

  const CookieNames: set<string> := {"cookie"}

  predicate IsCookie(h: Header) {
    Lower(h.0) in CookieNames
  }

  /**
   * The position the collapsed cookie header takes: the number of headers
   * already kept when the first cookie was met.
   */
  function CookieSlot(hs: seq<Header>): (r: Option<nat>)
    ensures r.Some? ==> r.value < |hs| && IsCookie(hs[r.value])
    ensures r.Some? ==> forall j :: 0 <= j < r.value ==> !IsCookie(hs[j])
    ensures r.None? ==> forall j :: 0 <= j < |hs| ==> !IsCookie(hs[j])
  {
    if hs == [] then None
    else
      var init := hs[..|hs| - 1];
      var s := CookieSlot(init);
      if s.Some? then s
      else if IsCookie(hs[|hs| - 1]) then
        RemoveNamedNothing(init, CookieNames);
        Some(|RemoveNamed(init, CookieNames)|)
      else None
  }

  /** The stripped values of the cookie headers, in order. */
  function CookieParts(hs: seq<Header>): (r: seq<string>)
    ensures |r| <= |hs|
  {
    if hs == [] then []
    else
      var last := hs[|hs| - 1];
      CookieParts(hs[..|hs| - 1]) + (if IsCookie(last) then [Strip(last.1)] else [])
  }

  /** The non-empty strings, in order. */
  function NonEmpty(parts: seq<string>): (r: seq<string>)
    ensures |r| <= |parts|
    ensures forall i :: 0 <= i < |r| ==> r[i] != []
    ensures forall p :: p in r <==> p in parts && p != []
  {
    if parts == [] then []
    else
      assert forall p :: p in parts <==> p == parts[0] || p in parts[1..];
      (if parts[0] == [] then [] else [parts[0]]) + NonEmpty(parts[1..])
  }

  /** The value of the collapsed cookie header. */
  function CookieValue(hs: seq<Header>): string {
    Join("; ", NonEmpty(CookieParts(hs)))
  }

  /**
   * The request header list with cookies collapsed: every cookie header
   * removed, and one `cookie` header carrying their joined values put where
   * the first one stood among the kept headers, unless that value is empty.
   */
  function CollapseCookies(hs: seq<Header>): (r: seq<Header>)
  {
    var kept := RemoveNamed(hs, CookieNames);
    match CookieSlot(hs)
    case None => kept
    case Some(i) =>
      SlotWithinKept(hs);
      var v := CookieValue(hs);
      if v == "" then kept else kept[..i] + [("cookie", v)] + kept[i..]
  }

  /** The first cookie's slot is the number of headers before it, all of which are kept. */
  lemma SlotWithinKept(hs: seq<Header>)
    requires CookieSlot(hs).Some?
    ensures CookieSlot(hs).value <= |RemoveNamed(hs, CookieNames)|
  {
    var k := CookieSlot(hs).value;
    assert hs == hs[..k] + hs[k..];
    RemoveNamedAppend(hs[..k], hs[k..], CookieNames);
    RemoveNamedNothing(hs[..k], CookieNames);
  }

  /** `_headers_to_list`: one pass over the pairs, then the collapsed cookie header inserted. */
  method HeadersToList(headers: seq<Header>, collapseCookie: bool) returns (out: seq<Header>)
    ensures out == if collapseCookie then CollapseCookies(headers) else headers
  {
    out := [];
    var cookieIndex: Option<nat> := None;
    var cookieParts: seq<string> := [];
    var i := 0;
    while i < |headers|
      invariant 0 <= i <= |headers|
      invariant collapseCookie ==> out == RemoveNamed(headers[..i], CookieNames)
      invariant collapseCookie ==> cookieIndex == CookieSlot(headers[..i])
      invariant collapseCookie ==> cookieParts == CookieParts(headers[..i])
      invariant !collapseCookie ==> out == headers[..i] && cookieIndex.None?
    {
      assert headers[..i + 1][..i] == headers[..i];
      var (key, value) := headers[i];
      if collapseCookie && Lower(key) == "cookie" {
        if cookieIndex.None? {
          cookieIndex := Some(|out|);
        }
        cookieParts := cookieParts + [Strip(value)];
      } else {
        out := out + [(key, value)];
      }
      i := i + 1;
    }
    assert headers[..i] == headers;
    if cookieIndex.Some? {
      SlotWithinKept(headers);
      var cookieValue := Join("; ", NonEmpty(cookieParts));
      if cookieValue != "" {
        out := out[..cookieIndex.value] + [("cookie", cookieValue)] + out[cookieIndex.value..];
      }
    }
  }

  /** Without a cookie header the list comes through unchanged. */
  lemma NoCookieUnchanged(hs: seq<Header>)
    requires forall i :: 0 <= i < |hs| ==> !IsCookie(hs[i])
    ensures CollapseCookies(hs) == hs
  {
    RemoveNamedNothing(hs, CookieNames);
  }

  /**
   * Collapsing keeps every other header, duplicates included, in its
   * original order: dropping the cookie headers from the result or from the
   * input gives the same list.
   */
  lemma CollapseKeepsOthers(hs: seq<Header>)
    ensures RemoveNamed(CollapseCookies(hs), CookieNames) == RemoveNamed(hs, CookieNames)
  {
    var kept := RemoveNamed(hs, CookieNames);
    if CookieSlot(hs).Some? && CookieValue(hs) != "" {
      SlotWithinKept(hs);
      InsertedCookieRemoved(kept, CookieSlot(hs).value, CookieValue(hs));
    } else {
      RemoveNamedTwice(hs);
    }
  }

  lemma RemoveNamedTwice(hs: seq<Header>)
    ensures RemoveNamed(RemoveNamed(hs, CookieNames), CookieNames) == RemoveNamed(hs, CookieNames)
  {
    RemoveNamedIdempotent(hs, CookieNames);
  }

  /** A cookie header inserted into a list without cookies is the only thing cookie removal takes out. */
  lemma InsertedCookieRemoved(kept: seq<Header>, i: nat, v: string)
    requires i <= |kept| && forall j :: 0 <= j < |kept| ==> !IsCookie(kept[j])
    ensures RemoveNamed(kept[..i] + [("cookie", v)] + kept[i..], CookieNames) == kept
  {
    var a, b := kept[..i], kept[i..];
    var c := ("cookie", v);
    assert a + b == kept;
    assert forall j :: 0 <= j < |a| ==> a[j] == kept[j];
    assert forall j :: 0 <= j < |b| ==> b[j] == kept[i + j];
    calc {
      RemoveNamed(a + [c] + b, CookieNames);
      { RemoveNamedAppend(a + [c], b, CookieNames); }
      RemoveNamed(a + [c], CookieNames) + RemoveNamed(b, CookieNames);
      { RemoveNamedAppend(a, [c], CookieNames); }
      RemoveNamed(a, CookieNames) + RemoveNamed([c], CookieNames) + RemoveNamed(b, CookieNames);
      { RemoveNamedNothing(a, CookieNames); RemoveNamedNothing(b, CookieNames); CookieHeaderRemoved(v); }
      a + [] + b;
      { assert a + [] == a; }
      kept;
    }
  }

  lemma CookieHeaderRemoved(v: string)
    ensures RemoveNamed([("cookie", v)], CookieNames) == []
  {
    CookieNameIsLower();
    assert [("cookie", v)][..0] == [];
  }

  lemma CookieNameIsLower()
    ensures Lower("cookie") == "cookie"
  {
    var l := Lower("cookie");
    assert l[0] == 'c' && l[1] == 'o' && l[2] == 'o' && l[3] == 'k' && l[4] == 'i' && l[5] == 'e';
  }

  /**
   * The result holds at most one cookie header: the collapsed one, at the
   * first cookie's slot, carrying the `"; "`-joined non-empty stripped values,
   * and only when that value is not empty.
   */
  lemma CollapsedCookieHeader(hs: seq<Header>)
    ensures var r := CollapseCookies(hs);
            forall j :: 0 <= j < |r| && IsCookie(r[j]) ==>
              && CookieSlot(hs).Some? && j == CookieSlot(hs).value
              && r[j] == ("cookie", Join("; ", NonEmpty(CookieParts(hs))))
              && r[j].1 != ""
  {
    var kept := RemoveNamed(hs, CookieNames);
    assert forall j :: 0 <= j < |kept| ==> !IsCookie(kept[j]);
    if CookieSlot(hs).Some? && CookieValue(hs) != "" {
      SlotWithinKept(hs);
      InsertedCookieIsOnly(kept, CookieSlot(hs).value, CookieValue(hs));
    }
  }

  /** Inserting a cookie header into a list without cookies leaves it the only one. */
  lemma InsertedCookieIsOnly(kept: seq<Header>, i: nat, v: string)
    requires i <= |kept| && forall j :: 0 <= j < |kept| ==> !IsCookie(kept[j])
    ensures var r := kept[..i] + [("cookie", v)] + kept[i..];
            forall j :: 0 <= j < |r| && IsCookie(r[j]) ==> j == i && r[j] == ("cookie", v)
  {
    var r := kept[..i] + [("cookie", v)] + kept[i..];
    forall j | 0 <= j < |r| && j != i ensures !IsCookie(r[j]) {
      if j < i {
        assert r[j] == kept[j];
      } else {
        assert r[j] == kept[j - 1];
      }
    }
  }

  /** `_safe_decode`: nothing for an empty body, otherwise at most `limit` leading bytes decoded. */
  function SafeDecode(data: Bytes, limit: nat, charset: string, decode: (Bytes, string) -> string): (r: Option<string>)
    ensures r.None? <==> data == []
    ensures r.Some? ==> r.value == decode(Prefix(data, limit), charset)
  {
    if data == [] then None else Some(decode(Prefix(data, limit), charset))
  }

  /** The content type names JSON: `"json" in content_type.lower()`. */
  predicate IsJsonType(contentType: Option<string>) {
    contentType.Some? && Contains(Lower(contentType.value), "json")
  }

  /**
   * What `json.dumps(json.loads(text), indent=2)` does with a text: it gives
   * the formatted text, raises `JSONDecodeError` (the text is not JSON), or
   * raises something else, such as `RecursionError` on deeply nested input
   * or `ValueError` on an integer too long to convert.
   */
  datatype Pretty = Formatted(text: string) | NotJson | Raises

  /** Why `_preview_text` raises: an unknown charset, or a JSON failure it does not catch. */
  datatype PreviewError = UnknownCharset | JsonFailure

  /**
   * `_preview_text` raises: the body is non-empty and either declares a
   * charset Python does not know (`LookupError`) or is a small JSON body
   * whose parse or dump fails with anything but `JSONDecodeError`.
   */
  predicate PreviewRaises(data: Bytes, contentType: Option<string>, codecs: Codecs) {
    var cs := CharsetFromContentType(contentType);
    && data != []
    && (|| !codecs.known(cs)
        || (IsJsonType(contentType) && |data| <= MaxFormatBytes && codecs.pretty(codecs.decode(data, cs)).Raises?))
  }

  /**
   * `_preview_text`: nothing for an empty body; a small JSON body is
   * pretty-printed and cut to 8192 characters, or, when it is not JSON, has
   * its first 8192 bytes decoded; any other body has its first 8192 bytes
   * decoded. An unknown charset, or a JSON failure other than
   * `JSONDecodeError`, raises.
   */
  function PreviewText(data: Bytes, contentType: Option<string>, codecs: Codecs): (r: Result<Option<string>, PreviewError>)
    ensures r.Failure? <==> PreviewRaises(data, contentType, codecs)
    ensures r.Success? ==> (r.value.None? <==> data == [])
    ensures data != [] && !codecs.known(CharsetFromContentType(contentType)) ==> r == Failure(UnknownCharset)
    ensures data != [] && codecs.known(CharsetFromContentType(contentType))
            && IsJsonType(contentType) && |data| <= MaxFormatBytes ==>
              var cs := CharsetFromContentType(contentType);
              match codecs.pretty(codecs.decode(data, cs))
              case Formatted(formatted) => r == Success(Some(Prefix(formatted, MaxPreview)))
              case NotJson => r == Success(Some(codecs.decode(Prefix(data, MaxPreview), cs)))
              case Raises => r == Failure(JsonFailure)
    ensures data != [] && codecs.known(CharsetFromContentType(contentType))
            && !(IsJsonType(contentType) && |data| <= MaxFormatBytes) ==>
              r == Success(Some(codecs.decode(Prefix(data, MaxPreview), CharsetFromContentType(contentType))))
    ensures r.Success? && r.value.Some? && IsJsonType(contentType) && |data| <= MaxFormatBytes
            && codecs.pretty(codecs.decode(data, CharsetFromContentType(contentType))).Formatted? ==>
              |r.value.value| <= MaxPreview
  {
    if data == [] then Success(None)
    else
      var charset := CharsetFromContentType(contentType);
      if !codecs.known(charset) then Failure(UnknownCharset)
      else if IsJsonType(contentType) && |data| <= MaxFormatBytes then
        match codecs.pretty(codecs.decode(data, charset))
        case Formatted(formatted) => Success(Some(Prefix(formatted, MaxPreview)))
        case NotJson => Success(SafeDecode(data, MaxPreview, charset, codecs.decode))
        case Raises => Failure(JsonFailure)
      else Success(SafeDecode(data, MaxPreview, charset, codecs.decode))
  }

  /** The request side of an intercepted exchange. */
  datatype CapturedRequest = CapturedRequest(
    httpMethod: string,
    prettyUrl: string,
    host: string,
    path: string,
    headers: seq<Header>,
    raw: Bytes,
    content: Bytes,
    contentType: Option<string>)

  /** The response side; `timestampEnd` is when it completed, if known. */
  datatype CapturedResponse = CapturedResponse(
    status: int,
    headers: seq<Header>,
    raw: Bytes,
    content: Bytes,
    contentType: Option<string>,
    timestampEnd: Option<real>)

  /** An intercepted exchange; `ts` is its start time (the clock when mitmproxy has none). */
  datatype CapturedFlow = CapturedFlow(id: string, ts: real, request: CapturedRequest, response: Option<CapturedResponse>)

  /**
   * The library codecs `flow_ingest` relies on: which charset names Python
   * knows, base64, decoding with replacement in a known charset, and JSON
   * pretty-printing with its outcome.
   */
  datatype Codecs = Codecs(
    known: string -> bool,
    b64encode: Bytes -> string,
    decode: (Bytes, string) -> string,
    pretty: string -> Pretty)

  /** The request body is stored when it is non-empty and at most 256 KiB. */
  predicate StoresRequestBody(raw: Bytes) {
    raw != [] && |raw| <= MaxReqBodyStore
  }

  /** The decoded response body is stored when it is non-empty and at most 2 MiB. */
  predicate StoresResponseBody(content: Bytes) {
    content != [] && |content| <= MaxRespBodyStore
  }

  /** The response's decoded body, or nothing without a response. */
  function ResponseContent(f: CapturedFlow): Bytes {
    if f.response.Some? then f.response.value.content else []
  }

  /** The response's content type, or nothing without a response. */
  function ResponseContentType(f: CapturedFlow): Option<string> {
    if f.response.Some? then f.response.value.contentType else None
  }

  /**
   * `flow_ingest`: the compact record and the base64 response body sent
   * alongside it, or `None` where it raises because a preview raises: a
   * non-empty body declares a charset Python does not know, or a small JSON
   * body fails to load or dump with an error other than `JSONDecodeError`.
   * Durations are not rounded here.
   */
  function FlowIngest(f: CapturedFlow, codecs: Codecs): (r: Option<(FlowCompact, Option<string>)>)
    ensures r.None? <==> PreviewRaises(f.request.content, f.request.contentType, codecs)
                         || PreviewRaises(ResponseContent(f), ResponseContentType(f), codecs)
    ensures r.Some? ==> (r.value.0.reqBodyB64.Some? <==> StoresRequestBody(f.request.raw))
    ensures r.Some? && r.value.0.reqBodyB64.Some? ==> r.value.0.reqBodyB64.value == codecs.b64encode(f.request.raw)
    ensures r.Some? ==> (r.value.1.Some? <==> StoresResponseBody(ResponseContent(f)))
    ensures r.Some? && r.value.1.Some? ==> r.value.1.value == codecs.b64encode(f.response.value.content)
    ensures r.Some? ==> r.value.0.reqSize == |f.request.raw|
    ensures r.Some? ==> r.value.0.respSize == if f.response.Some? then |f.response.value.raw| else 0
    ensures r.Some? && f.response.None? ==>
              r.value.0.status.None? && r.value.0.respHeaders == [] && r.value.0.duration.None? && r.value.0.respPreview.None?
    ensures r.Some? && f.response.Some? ==>
              r.value.0.status == Some(f.response.value.status) && r.value.0.respHeaders == f.response.value.headers
    ensures r.Some? ==> r.value.0.reqHeaders == CollapseCookies(f.request.headers)
    ensures r.Some? && r.value.0.duration.Some? ==> r.value.0.duration.value >= 0.0
  {
    var req := f.request;
    var respContent := ResponseContent(f);
    var respType := ResponseContentType(f);
    var reqPreview := PreviewText(req.content, req.contentType, codecs);
    var respPreview := PreviewText(respContent, respType, codecs);
    if reqPreview.Failure? || respPreview.Failure? then
      None
    else
      var duration :=
        if f.response.Some? && f.response.value.timestampEnd.Some? && f.response.value.timestampEnd.value >= f.ts
        then Some(f.response.value.timestampEnd.value - f.ts) else None;
      var reqB64 := if StoresRequestBody(req.raw) then Some(codecs.b64encode(req.raw)) else None;
      var respB64 := if StoresResponseBody(respContent) then Some(codecs.b64encode(respContent)) else None;
      var compact := FlowCompact(
        f.id, f.ts, req.httpMethod, req.prettyUrl, Some(req.host), Some(req.path),
        if f.response.Some? then Some(f.response.value.status) else None,
        duration,
        CollapseCookies(req.headers),
        if f.response.Some? then f.response.value.headers else [],
        |req.raw|,
        if f.response.Some? then |f.response.value.raw| else 0,
        reqB64,
        reqPreview.value,
        respPreview.value);
      Some((compact, respB64))
  }

  /** A preview exists exactly for a non-empty decoded body, on either side. */
  lemma PreviewsFollowBodies(f: CapturedFlow, codecs: Codecs)
    ensures FlowIngest(f, codecs).Some? ==> (FlowIngest(f, codecs).value.0.reqPreview.None? <==> f.request.content == [])
    ensures FlowIngest(f, codecs).Some? ==> (FlowIngest(f, codecs).value.0.respPreview.None? <==> ResponseContent(f) == [])
  {
  }

  /**
   * A non-empty response body whose content type is `p + "charset=" + v`,
   * with `v` a charset name Python does not know, makes `flow_ingest` raise:
   * the exchange yields no record.
   */
  lemma UnknownResponseCharsetRaises(f: CapturedFlow, codecs: Codecs, p: string, v: string)
    requires f.response.Some? && f.response.value.content != []
    requires f.response.value.contentType == Some(p + Key + v)
    requires forall i :: 0 <= i < |p| ==> p[i] != '='
    requires v != [] && forall i :: 0 <= i < |v| ==> v[i] != ';'
    requires !IsSpace(v[0]) && !IsSpace(v[|v| - 1])
    requires v[0] != '"' && v[|v| - 1] != '"' && v[0] != '\'' && v[|v| - 1] != '\''
    requires !codecs.known(v)
    ensures FlowIngest(f, codecs).None?
  {
    CharsetOfPlainParameter(p, v, []);
    assert p + Key + v + [] == p + Key + v;
  }

  /**
   * A non-empty JSON response of at most 256 KiB, in a known charset, whose
   * load or dump raises something other than `JSONDecodeError` (say, a body
   * nested too deeply) makes `flow_ingest` raise: the exchange yields no
   * record.
   */
  lemma JsonFailureRaises(f: CapturedFlow, codecs: Codecs)
    requires f.response.Some? && f.response.value.content != []
    requires |f.response.value.content| <= MaxFormatBytes && IsJsonType(f.response.value.contentType)
    requires var cs := CharsetFromContentType(f.response.value.contentType);
             codecs.known(cs) && codecs.pretty(codecs.decode(f.response.value.content, cs)) == Raises
    ensures FlowIngest(f, codecs).None?
  {
    assert PreviewRaises(ResponseContent(f), ResponseContentType(f), codecs);
  }
}
