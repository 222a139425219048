/**
 * The backend's request handlers around its three pieces of state: the flow
 * store, the event bus and the replay cache. The web framework, the HTTP
 * client and the codecs are not modelled; what they produce comes in as
 * parameters.
 */
module App {
  import opened Base
  import opened Text
  import opened Json
  import opened Models
  import opened Scope
  import opened Urls
  import opened Charset
  import opened Html
  import opened Upstream
  import Bridge
  import Replay
  import EventBus
  import FlowStore

  const HttpOk := 200
  const HttpBadRequest := 400
  const HttpNotFound := 404
  const HttpServerError := 500

  // ----- set_scope -----

  /**
   * The scope `set_scope` saves: each pattern stripped, blank ones dropped,
   * an include list left empty replaced by the catch-all `*`.
   */
  function NormalizedScope(includes: seq<string>, excludes: seq<string>, drop: bool): (r: Bridge.ScopeSettings)
    ensures r.includes != [] && r.drop == drop
    ensures r.includes == ["*"] || forall i :: 0 <= i < |r.includes| ==> Trimmed(r.includes[i])
    ensures forall i :: 0 <= i < |r.excludes| ==> Trimmed(r.excludes[i])
    ensures |r.excludes| <= |excludes|
  {
    Bridge.ScopeSettings(IncludeOrAll(includes), CleanPatterns(excludes), drop)
  }

  function StringsToJson(ps: seq<string>): Json {
    JArr(seq(|ps|, i requires 0 <= i < |ps| => JStr(ps[i])))
  }

  /** The scope as the backend serves it to the capturing agent. */
  function ScopeDocument(s: Bridge.ScopeSettings): Json {
    JObj(map["include" := StringsToJson(s.includes), "exclude" := StringsToJson(s.excludes), "drop" := JBool(s.drop)])
  }

  lemma {:induction false} StringItemsOfStrings(ps: seq<string>)
    ensures Bridge.StringItems(StringsToJson(ps).items) == ps
    decreases |ps|
  {
    if ps != [] {
      assert StringsToJson(ps).items[1..] == StringsToJson(ps[1..]).items;
      StringItemsOfStrings(ps[1..]);
    }
  }

  lemma StarIsTrimmed()
    ensures Trimmed("*")
  {
    assert "*"[0] == '*';
  }

  /** Normalising an include list twice is normalising it once. */
  lemma IncludeOrAllIdempotent(ps: seq<string>)
    ensures IncludeOrAll(IncludeOrAll(ps)) == IncludeOrAll(ps)
  {
    if CleanPatterns(ps) == [] {
      StarIsTrimmed();
      CleanPatternsNoop(["*"]);
    } else {
      CleanPatternsIdempotent(ps);
    }
  }

  /**
   * The capturing agent, reading back a saved scope, applies exactly the
   * settings that were saved: the two normalisations agree.
   */
  lemma SavedScopeReadsBack(includes: seq<string>, excludes: seq<string>, drop: bool)
    ensures var s := NormalizedScope(includes, excludes, drop);
            Bridge.ScopeFromJson(ScopeDocument(s)) == Some(s)
  {
    var s := NormalizedScope(includes, excludes, drop);
    ScopeDocumentReads(s);
    IncludeOrAllIdempotent(includes);
    CleanPatternsIdempotent(excludes);
  }

  /** The agent reads a served scope through its own normalisation. */
  lemma ScopeDocumentReads(s: Bridge.ScopeSettings)
    ensures Bridge.ScopeFromJson(ScopeDocument(s))
         == Some(Bridge.ScopeSettings(IncludeOrAll(s.includes), CleanPatterns(s.excludes), s.drop))
  {
    ScopeDocumentFields(s);
    StringItemsOfStrings(s.includes);
    StringItemsOfStrings(s.excludes);
  }

  /** The three keys of the served document, as the agent looks them up. */
  lemma ScopeDocumentFields(s: Bridge.ScopeSettings)
    ensures Bridge.IncludeSource(ScopeDocument(s).fields) == Some(StringsToJson(s.includes))
    ensures Bridge.Get(ScopeDocument(s).fields, "exclude") == Some(StringsToJson(s.excludes))
    ensures Bridge.Get(ScopeDocument(s).fields, "drop") == Some(JBool(s.drop))
  {
  }

  // ----- ingest -----

  /** The library codecs `ingest` relies on; `b64decode` gives `None` where Python raises. */
  datatype IngestCodecs = IngestCodecs(b64decode: string -> Option<Bytes>, decode: Bytes -> string, encodeEvent: SseEvent -> string)

  /** The decoded response body, empty when the base64 text does not decode. */
  function DecodedOrEmpty(b64: string, codecs: IngestCodecs): Bytes {
    match codecs.b64decode(b64)
    case None => []
    case Some(b) => b
  }

  /**
   * The searchable text copy of the response body: present exactly when the
   * base64 body is a non-empty string that decodes to a non-empty body.
   */
  function RespBodyText(respBodyB64: Option<string>, codecs: IngestCodecs): (r: Option<string>)
    ensures r.Some? <==> respBodyB64.Some? && respBodyB64.value != [] && DecodedOrEmpty(respBodyB64.value, codecs) != []
    ensures r.Some? ==> r.value == codecs.decode(DecodedOrEmpty(respBodyB64.value, codecs))
    ensures respBodyB64.Some? && codecs.b64decode(respBodyB64.value).None? ==> r.None?
  {
    if respBodyB64.None? || respBodyB64.value == [] then None
    else
      var decoded := DecodedOrEmpty(respBodyB64.value, codecs);
      if decoded == [] then None else Some(codecs.decode(decoded))
  }

  /**
   * `ingest`: reject anything but a flow with status 400; otherwise store the
   * flow first and then publish its summary, carrying the sequence number the
   * store returned, to every subscriber.
   */
  method Ingest(store: FlowStore.Store, bus: EventBus.Bus, kind: string, data: FlowCompact,
                respBodyB64: Option<string>, codecs: IngestCodecs)
    returns (r: Result<bool, int>)
    requires store.Valid() && bus.Valid()
    modifies store, bus
    ensures store.Valid() && bus.Valid()
    ensures kind != "flow" ==> r == Failure(HttpBadRequest) && store.rows == old(store.rows) && bus.queues == old(bus.queues)
    ensures kind == "flow" ==>
              var seqNo := FlowStore.RowidAfterUpsert(old(store.rows), data.id);
              var payload := codecs.encodeEvent(SseEvent(FlowEvent, Summarize(data, seqNo)));
              && r == Success(true)
              && store.rows == FlowStore.PruneOldest(
                   FlowStore.Upserted(old(store.rows), data.id,
                     FlowStore.ColumnsOf(data, respBodyB64, RespBodyText(respBodyB64, codecs))),
                   store.maxRows)
              && bus.queues.Keys == old(bus.queues).Keys
              && forall id :: id in bus.queues ==> bus.queues[id] == EventBus.Offer(old(bus.queues)[id], payload)
  {
    if kind != "flow" {
      return Failure(HttpBadRequest);
    }
    var text := RespBodyText(respBodyB64, codecs);
    var seqNo := store.UpsertFlow(data, respBodyB64, text);
    var summary := Summarize(data, seqNo);
    bus.Publish(codecs.encodeEvent(SseEvent(FlowEvent, summary)));
    r := Success(true);
  }

  // ----- replay: the spec endpoint -----

  /** The document `replay_get_spec` answers with; the body is decoded as UTF-8 with replacement by `decode`. */
  function SpecDocument(e: Replay.Entry, decode: Bytes -> string): (r: Json)
    ensures Bridge.IsSpecDocument(r)
    ensures r.fields["method"] == JStr(e.httpMethod) && r.fields["url"] == JStr(e.url)
    ensures StringPairs(r.fields["headers"].items) == e.headers
  {
    StringPairsOfHeaders(e.headers);
    JObj(map["method" := JStr(e.httpMethod), "url" := JStr(e.url),
             "headers" := HeadersToJson(e.headers), "body" := JStr(decode(e.body))])
  }

  /** `replay_get_spec`: prune, read the entry without removing it, 404 when it is absent or expired. */
  method ReplayGetSpec(cache: Replay.ReplayCache, token: string, now: real, decode: Bytes -> string)
    returns (r: Result<Json, int>)
    modifies cache
    ensures cache.entries == Replay.Pruned(old(cache.entries), now)
    ensures r.Success? <==> token in old(cache.entries) && now - old(cache.entries)[token].ts <= Replay.TtlSeconds
    ensures r.Failure? ==> r.error == HttpNotFound
    ensures r.Success? ==> r.value == SpecDocument(old(cache.entries)[token], decode)
  {
    var item := cache.Resolve(token, now);
    if item.None? {
      return Failure(HttpNotFound);
    }
    r := Success(SpecDocument(item.value, decode));
  }

  /** The capturing agent reads the served document back as the stored request. */
  lemma SpecReadsBack(e: Replay.Entry, decode: Bytes -> string)
    ensures Bridge.FetchReplaySpec(Some(Bridge.BackendReply(HttpOk, Some(SpecDocument(e, decode)))))
         == Some(Bridge.ReplaySpec(Upper(e.httpMethod), e.url, e.headers, decode(e.body)))
  {
    StringPairsOfHeaders(e.headers);
  }

  lemma GetIsUpper()
    ensures Upper("GET") == "GET"
  {
    var u := Upper("GET");
    assert u[0] == 'G' && u[1] == 'E' && u[2] == 'T';
  }

  /**
   * The browser replay closes the loop: for an entry that earned a browser
   * URL (a GET without a body), the agent rewrites a GET request carrying its
   * token, and only a GET, to the stored headers.
   */
  lemma BrowserReplayRewrites(e: Replay.Entry, decode: Bytes -> string, requestMethod: string)
    requires e.httpMethod == "GET" && e.body == [] && decode([]) == []
    ensures var spec := Bridge.FetchReplaySpec(Some(Bridge.BackendReply(HttpOk, Some(SpecDocument(e, decode)))));
            && (Bridge.ShouldRewrite(spec, requestMethod) <==> Upper(requestMethod) == "GET")
            && spec.value.headers == e.headers && spec.value.url == e.url
  {
    SpecReadsBack(e, decode);
    GetIsUpper();
  }

  // ----- replay: the page endpoint -----

  /** The upstream answer; `contentType` is its `content-type` header, if any. */
  datatype UpstreamReply = UpstreamReply(status: int, rawHeaders: seq<Header>, content: Bytes, contentType: Option<string>)

  /**
   * The library pieces the page endpoint relies on: which charsets Python
   * knows, decoding and encoding with replacement in a known charset,
   * `urljoin`, and URL splitting.
   */
  datatype PageCodecs = PageCodecs(
    known: string -> bool,
    decode: (Bytes, string) -> string,
    encode: (string, string) -> Bytes,
    join: (string, string) -> string,
    url: UrlCodec)

  /** The answer the browser gets. */
  datatype PageResponse = PageResponse(status: int, headers: seq<Header>, content: Bytes)

  /** `content_type is not None and "text/html" in content_type.lower()`. */
  predicate IsHtml(contentType: Option<string>) {
    contentType.Some? && Contains(Lower(contentType.value), "text/html")
  }

  /** `urljoin(request_url, _)`. */
  function JoinAgainst(join: (string, string) -> string, base: string): string -> string {
    loc => join(base, loc)
  }

  function InjectedPage(text: string, url: string, codecs: PageCodecs): string {
    InjectBaseHref(text, BaseHrefForUrl(codecs.url, url))
  }

  /**
   * The page rewrite as written: the text is decoded with the declared
   * charset, or with UTF-8 when Python does not know it, but it is always
   * re-encoded with the declared charset, so an unknown one ends the request
   * with a server error.
   */
  function RewritePageAsWritten(content: Bytes, contentType: Option<string>, url: string, codecs: PageCodecs)
    : (r: Result<Bytes, int>)
    ensures !IsHtml(contentType) ==> r == Success(content)
    ensures IsHtml(contentType) ==> (r.Failure? <==> !codecs.known(CharsetFromContentType(contentType)))
  {
    if !IsHtml(contentType) then Success(content)
    else
      var cs := CharsetFromContentType(contentType);
      var text := if codecs.known(cs) then codecs.decode(content, cs) else codecs.decode(content, DefaultCharset);
      var page := InjectedPage(text, url, codecs);
      if codecs.known(cs) then Success(codecs.encode(page, cs)) else Failure(HttpServerError)
  }

  /**
   * An HTML page declaring a charset Python does not know is never served:
   * `text/html`, then parameters without `=`, then `charset=v` ends the
   * request with a server error.
   */
  lemma UnknownCharsetFails(content: Bytes, params: string, v: string, url: string, codecs: PageCodecs)
    requires forall i :: 0 <= i < |params| ==> params[i] != '='
    requires v != [] && forall i :: 0 <= i < |v| ==> v[i] != ';'
    requires !IsSpace(v[0]) && !IsSpace(v[|v| - 1])
    requires v[0] != '"' && v[|v| - 1] != '"' && v[0] != '\'' && v[|v| - 1] != '\''
    requires !codecs.known(v)
    ensures RewritePageAsWritten(content, Some("text/html" + params + Key + v), url, codecs) == Failure(HttpServerError)
  {
    var p := "text/html" + params;
    var ct := p + Key + v;
    assert CharsetFromContentType(Some(ct)) == v by {
      assert forall i :: 0 <= i < |p| ==> p[i] != '=' by {
        assert forall i :: 9 <= i < |p| ==> p[i] == params[i - 9];
      }
      CharsetOfPlainParameter(p, v, []);
      assert p + Key + v + [] == ct;
    }
    assert forall i :: 0 <= i < 9 ==> ct[i] == p[i];
    HtmlPrefix(ct);
  }

  lemma HtmlPrefix(ct: string)
    requires |ct| >= 9 && forall i :: 0 <= i < 9 ==> ct[i] == "text/html"[i]
    ensures IsHtml(Some(ct))
  {
    var l := Lower(ct);
    assert l[0] == 't' && l[1] == 'e' && l[2] == 'x' && l[3] == 't' && l[4] == '/';
    assert l[5] == 'h' && l[6] == 't' && l[7] == 'm' && l[8] == 'l';
    assert l[..9] == "text/html";
    ContainsAt(l, "text/html", 0);
  }

  /** The charset an HTML page is read and written in: the declared one if Python knows it, UTF-8 otherwise. */
  function PageCharset(contentType: Option<string>, codecs: PageCodecs): (cs: string)
    ensures cs == CharsetFromContentType(contentType) || cs == DefaultCharset
    ensures codecs.known(CharsetFromContentType(contentType)) ==> cs == CharsetFromContentType(contentType)
    ensures codecs.known(DefaultCharset) ==> codecs.known(cs)
  {
    var cs := CharsetFromContentType(contentType);
    if codecs.known(cs) then cs else DefaultCharset
  }

  /**
   * The page rewrite as intended: an HTML body is decoded, given a
   * `<base href>` and re-encoded in one and the same charset; any other body
   * passes through byte for byte.
   */
  function RewritePage(content: Bytes, contentType: Option<string>, url: string, codecs: PageCodecs): (r: Bytes)
    ensures !IsHtml(contentType) ==> r == content
    ensures IsHtml(contentType) ==>
              var cs := PageCharset(contentType, codecs);
              r == codecs.encode(InjectedPage(codecs.decode(content, cs), url, codecs), cs)
  {
    if !IsHtml(contentType) then content
    else
      var cs := PageCharset(contentType, codecs);
      codecs.encode(InjectedPage(codecs.decode(content, cs), url, codecs), cs)
  }

  /** Where Python knows the declared charset, the rewrite as written and as intended agree. */
  lemma RewriteAgreesOnKnownCharsets(content: Bytes, contentType: Option<string>, url: string, codecs: PageCodecs)
    requires !IsHtml(contentType) || codecs.known(CharsetFromContentType(contentType))
    ensures RewritePageAsWritten(content, contentType, url, codecs) == Success(RewritePage(content, contentType, url, codecs))
  {
  }

  /**
   * With codecs that read back what they write in every known charset, the
   * served page decodes, in the charset it was written in, to the page with
   * its base tag: the browser sees the injected page, whatever charset was
   * declared.
   */
  lemma ServedPageReadsBack(content: Bytes, contentType: Option<string>, url: string, codecs: PageCodecs)
    requires codecs.known(DefaultCharset)
    requires forall s, cs :: codecs.known(cs) ==> codecs.decode(codecs.encode(s, cs), cs) == s
    requires IsHtml(contentType)
    ensures var cs := PageCharset(contentType, codecs);
            && codecs.known(cs)
            && codecs.decode(RewritePage(content, contentType, url, codecs), cs)
               == InjectedPage(codecs.decode(content, cs), url, codecs)
  {
  }

  /**
   * `replay_get`: resolve the token (404 when absent or expired), send the
   * stored request upstream, rewrite an HTML answer as the code does (a
   * server error when the declared charset is unknown), and pass the status
   * and the filtered raw headers through.
   */
  method ReplayGet(cache: Replay.ReplayCache, token: string, now: real,
                   upstream: Replay.Entry -> UpstreamReply, codecs: PageCodecs)
    returns (r: Result<PageResponse, int>)
    modifies cache
    ensures cache.entries == Replay.Pruned(old(cache.entries), now)
    ensures var live := token in old(cache.entries) && now - old(cache.entries)[token].ts <= Replay.TtlSeconds;
            !live <==> r == Failure(HttpNotFound)
    ensures token in old(cache.entries) && now - old(cache.entries)[token].ts <= Replay.TtlSeconds ==>
              var e := old(cache.entries)[token];
              var up := upstream(e);
              var page := RewritePageAsWritten(up.content, up.contentType, e.url, codecs);
              && (page.Failure? ==> r == Failure(HttpServerError))
              && (page.Success? ==>
                    r == Success(PageResponse(up.status,
                                              RawHeadersSpec(up.rawHeaders, JoinAgainst(codecs.join, e.url)),
                                              page.value)))
    ensures r.Success? ==>
              var e := old(cache.entries)[token];
              var up := upstream(e);
              r.value.content == RewritePage(up.content, up.contentType, e.url, codecs)
  {
    var item := cache.Resolve(token, now);
    if item.None? {
      return Failure(HttpNotFound);
    }
    var e := item.value;
    var up := upstream(e);
    var page := RewritePageAsWritten(up.content, up.contentType, e.url, codecs);
    if page.Failure? {
      return Failure(HttpServerError);
    }
    var headers := FilteredRawHeaders(up.rawHeaders, JoinAgainst(codecs.join, e.url));
    r := Success(PageResponse(up.status, headers, page.value));
  }
}
