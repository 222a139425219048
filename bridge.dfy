/**
 * The capturing agent's addon. It keeps the capture scope, refreshed from the
 * backend; its request hook turns a browser replay URL back into the stored
 * request and kills out-of-scope flows when dropping is on; its response hook
 * queues in-scope flows for the backend. The backend's replies and the
 * encoded flow come in as parameters: the HTTP client and the JSON codec are
 * not modelled.
 */
module Bridge {
  import opened Base
  import opened Text
  import opened Json
  import opened Urls
  import opened Scope
  import Models
  import Serialize

  const IngestQueueCapacity: nat := 10000
  const HttpOk := 200

  /** A backend answer: its status and its body as parsed JSON (`None` when the body is not JSON). */
  datatype BackendReply = BackendReply(status: int, json: Option<Json>)

  /** `dict.get(key)` on a JSON object. */
  function Get(fields: map<string, Json>, key: string): (r: Option<Json>)
    ensures r.Some? <==> key in fields
    ensures r.Some? ==> r.value == fields[key]
  {
    if key in fields then Some(fields[key]) else None
  }

  /** The Python value is `None`: the key is missing or holds JSON `null`. */
  predicate IsNone(o: Option<Json>) {
    o.None? || o.value.JNull?
  }

  /** The string items of a JSON list, in order; other items are skipped. */
  function StringItems(items: seq<Json>): (r: seq<string>)
    ensures |r| <= |items|
    ensures forall s :: s in r <==> JStr(s) in items
  {
    if items == [] then []
    else
      var rest := StringItems(items[1..]);
      assert forall j :: j in items <==> j == items[0] || j in items[1..];
      (if items[0].JStr? then [items[0].s] else []) + rest
  }

  /** The candidate patterns of a scope value: its string items if it is a list, none otherwise. */
  function RawPatterns(o: Option<Json>): seq<string> {
    if o.Some? && o.value.JArr? then StringItems(o.value.items) else []
  }

  /** The scope the addon applies: include and exclude patterns and whether to drop what falls outside. */
  datatype ScopeSettings = ScopeSettings(includes: seq<string>, excludes: seq<string>, drop: bool)

  /** Where the include patterns come from: `include`, or the legacy `patterns` key when `include` is missing or null. */
  function IncludeSource(fields: map<string, Json>): Option<Json> {
    var inc := Get(fields, "include");
    if IsNone(inc) && "patterns" in fields then Get(fields, "patterns") else inc
  }

  /**
   * The scope one poll reads from the backend's document; `None` when the
   * document is not an object, which the poll skips.
   */
  function ScopeFromJson(data: Json): (r: Option<ScopeSettings>)
    ensures r.None? <==> !data.JObj?
    ensures r.Some? ==> r.value.includes != []
    ensures r.Some? ==> forall i :: 0 <= i < |r.value.excludes| ==> Trimmed(r.value.excludes[i])
    ensures r.Some? ==> (r.value.drop <==> Get(data.fields, "drop") == Some(JBool(true)))
  {
    if !data.JObj? then None
    else
      var f := data.fields;
      Some(ScopeSettings(IncludeOrAll(RawPatterns(IncludeSource(f))),
                         CleanPatterns(RawPatterns(Get(f, "exclude"))),
                         Get(f, "drop") == Some(JBool(true))))
  }

  /** Every include pattern read from the backend is stripped and not blank, or is the `*` default. */
  lemma PolledIncludesTrimmed(data: Json)
    requires data.JObj?
    ensures var s := ScopeFromJson(data).value;
            s.includes == ["*"] || forall i :: 0 <= i < |s.includes| ==> Trimmed(s.includes[i])
  {
  }

  /** A non-null `include` wins: the legacy `patterns` key is then ignored. */
  lemma IncludeOverridesLegacy(fields: map<string, Json>)
    requires !IsNone(Get(fields, "include"))
    ensures ScopeFromJson(JObj(fields)) == ScopeFromJson(JObj(fields - {"patterns"}))
  {
    var g := fields - {"patterns"};
    assert Get(g, "include") == Get(fields, "include");
    assert Get(g, "exclude") == Get(fields, "exclude");
    assert Get(g, "drop") == Get(fields, "drop");
  }

  /** With `include` missing or null, the legacy `patterns` value is read as if it were `include`. */
  lemma LegacyPatternsFallback(fields: map<string, Json>)
    requires IsNone(Get(fields, "include")) && "patterns" in fields
    ensures ScopeFromJson(JObj(fields)) == ScopeFromJson(JObj(fields["include" := fields["patterns"]]))
  {
    var g := fields["include" := fields["patterns"]];
    assert Get(g, "exclude") == Get(fields, "exclude");
    assert Get(g, "drop") == Get(fields, "drop");
    if fields["patterns"].JNull? {
      assert IncludeSource(g) == Get(g, "patterns") == Some(JNull);
    }
  }

  /** An include value that is not a list, or holds no usable pattern, leaves the catch-all `*`. */
  lemma NoIncludesMeansAll(fields: map<string, Json>)
    requires RawPatterns(IncludeSource(fields)) == [] || CleanPatterns(RawPatterns(IncludeSource(fields))) == []
    ensures ScopeFromJson(JObj(fields)).value.includes == ["*"]
  {
  }

  /** The replay request the backend hands back for a token. */
  datatype ReplaySpec = ReplaySpec(httpMethod: string, url: string, headers: seq<Header>, body: string)

  /** The document has a string `method`, `url` and `body` and a list `headers`. */
  predicate IsSpecDocument(j: Json) {
    && j.JObj?
    && "method" in j.fields && j.fields["method"].JStr?
    && "url" in j.fields && j.fields["url"].JStr?
    && "headers" in j.fields && j.fields["headers"].JArr?
    && "body" in j.fields && j.fields["body"].JStr?
  }

  /**
   * `_fetch_replay_spec` once the backend has answered (`None` is a network
   * error): the spec, with the method upper-cased and the malformed header
   * items skipped, or `None`.
   */
  function FetchReplaySpec(reply: Option<BackendReply>): (r: Option<ReplaySpec>)
    ensures r.Some? <==> reply.Some? && reply.value.status == HttpOk && reply.value.json.Some?
                         && IsSpecDocument(reply.value.json.value)
    ensures r.Some? ==> Upper(r.value.httpMethod) == r.value.httpMethod
  {
    if reply.None? || reply.value.status != HttpOk || reply.value.json.None? then None
    else
      var j := reply.value.json.value;
      if !IsSpecDocument(j) then None
      else
        UpperIdempotent(j.fields["method"].s);
        Some(ReplaySpec(Upper(j.fields["method"].s), j.fields["url"].s,
                        StringPairs(j.fields["headers"].items), j.fields["body"].s))
  }

  /** The four conditions for a rewrite: a spec, for a GET, with an empty body, matching the request's method. */
  predicate ShouldRewrite(spec: Option<ReplaySpec>, requestMethod: string) {
    spec.Some? && spec.value.httpMethod == Upper(requestMethod) && spec.value.httpMethod == "GET" && spec.value.body == []
  }

  /**
   * What the request hook does to a request's URL and headers: for a URL
   * carrying a replay token whose spec passes `ShouldRewrite`, the URL without
   * the token and the spec's headers; otherwise nothing.
   */
  function ReplayRewrite(codec: UrlCodec, fetch: string -> Option<BackendReply>, requestMethod: string, url: string)
    : (r: Option<(string, seq<Header>)>)
    ensures LastReplayToken(codec.split(url).query).None? ==> r.None?
    ensures r.Some? ==> Upper(requestMethod) == "GET"
    ensures r.Some? ==>
              var token := LastReplayToken(codec.split(url).query).value;
              && ShouldRewrite(FetchReplaySpec(fetch(token)), requestMethod)
              && r.value.0 == StripSpec(codec, url).1.value
              && r.value.1 == FetchReplaySpec(fetch(token)).value.headers
  {
    match StripSpec(codec, url)
    case (Some(token), Some(rebuilt)) =>
      var spec := FetchReplaySpec(fetch(token));
      if ShouldRewrite(spec, requestMethod) then Some((rebuilt, spec.value.headers)) else None
    case _ => None
  }

  /** `put_nowait` into the ingest queue; a full queue drops the payload silently. */
  function Enqueue(q: seq<string>, payload: string): (r: seq<string>)
    ensures |q| < IngestQueueCapacity ==> r == q + [payload]
    ensures |q| >= IngestQueueCapacity ==> r == q
  {
    if |q| < IngestQueueCapacity then q + [payload] else q
  }

  /** The response hook forwards a flow marked in scope, or one never marked that is in scope now. */
  predicate ShouldForward(mark: Option<bool>, inScopeNow: bool) {
    mark == Some(true) || (mark.None? && inScopeNow)
  }

  /** The parts of a mitmproxy flow the hooks read and change. */
  class HttpFlow {
    var httpMethod: string
    /** `request.pretty_url`. */
    var url: string
    var headers: seq<Header>
    /** `metadata["nsp_in_scope"]`, absent until the request hook runs. */
    var inScopeMark: Option<bool>
    var killed: bool

    constructor (httpMethod: string, url: string, headers: seq<Header>)
      ensures this.httpMethod == httpMethod && this.url == url && this.headers == headers
      ensures inScopeMark.None? && !killed
    {
      this.httpMethod := httpMethod;
      this.url := url;
      this.headers := headers;
      inScopeMark := None;
      killed := false;
    }
  }

  class BridgeAddon {
    var scopeInclude: seq<string>
    var scopeExclude: seq<string>
    var scopeDrop: bool
    var includeRegex: seq<Matcher>
    var excludeRegex: seq<Matcher>
    /** Encoded flows waiting for the ingest worker. */
    var queue: seq<string>

    /** The compiled patterns are those of the pattern lists, and the queue is within its bound. */
    ghost predicate Valid()
      reads this
    {
      && includeRegex == CompileAll(scopeInclude)
      && excludeRegex == CompileAll(scopeExclude)
      && |queue| <= IngestQueueCapacity
    }

    /** Everything starts in scope: include `*`, no exclude, no drop, an empty queue. */
    constructor ()
      ensures Valid()
      ensures scopeInclude == ["*"] && scopeExclude == [] && !scopeDrop && queue == []
    {
      scopeInclude := ["*"];
      scopeExclude := [];
      scopeDrop := false;
      includeRegex := [CompileScopePattern("*")];
      excludeRegex := [];
      queue := [];
    }

    /** `_set_scope`: compile both lists, then replace the whole scope at once. */
    method SetScope(includes: seq<string>, excludes: seq<string>, drop: bool)
      requires Valid()
      modifies this
      ensures Valid()
      ensures scopeInclude == includes && scopeExclude == excludes && scopeDrop == drop
      ensures queue == old(queue)
    {
      var includeCompiled := CompileAll(includes);
      var excludeCompiled := CompileAll(excludes);
      scopeInclude := includes;
      scopeExclude := excludes;
      scopeDrop := drop;
      includeRegex := includeCompiled;
      excludeRegex := excludeCompiled;
    }

    /**
     * One round of `_poll_scope`: an OK answer whose body is a JSON object
     * replaces the scope; anything else (another status, a body that is not
     * JSON, a network error as `None`) leaves it as it was.
     */
    method PollScope(reply: Option<BackendReply>)
      requires Valid()
      modifies this
      ensures Valid() && queue == old(queue)
      ensures var s := if reply.Some? && reply.value.status == HttpOk && reply.value.json.Some?
                       then ScopeFromJson(reply.value.json.value) else None;
              if s.Some?
              then scopeInclude == s.value.includes && scopeExclude == s.value.excludes && scopeDrop == s.value.drop
              else scopeInclude == old(scopeInclude) && scopeExclude == old(scopeExclude) && scopeDrop == old(scopeDrop)
    {
      if reply.Some? && reply.value.status == HttpOk && reply.value.json.Some? {
        var s := ScopeFromJson(reply.value.json.value);
        if s.Some? {
          SetScope(s.value.includes, s.value.excludes, s.value.drop);
        }
      }
    }

    /** `_in_scope` against the current scope. */
    predicate IsInScope(url: string)
      reads this`includeRegex, this`excludeRegex
    {
      InScope(includeRegex, excludeRegex, url)
    }

    /**
     * The `request` hook: apply the replay rewrite if there is one, mark the
     * flow with whether its (possibly rewritten) URL is in scope, and kill it
     * when it is out of scope and dropping is on.
     */
    method Request(flow: HttpFlow, codec: UrlCodec, fetch: string -> Option<BackendReply>)
      requires Valid()
      modifies flow
      ensures var rw := ReplayRewrite(codec, fetch, old(flow.httpMethod), old(flow.url));
              && flow.url == (if rw.Some? then rw.value.0 else old(flow.url))
              && flow.headers == (if rw.Some? then rw.value.1 else old(flow.headers))
      ensures flow.httpMethod == old(flow.httpMethod)
      ensures flow.inScopeMark == Some(IsInScope(flow.url))
      ensures flow.killed <==> old(flow.killed) || (!IsInScope(flow.url) && scopeDrop)
    {
      var token, newUrl := StripReplayParam(codec, flow.url);
      if token.Some? && newUrl.Some? {
        var spec := FetchReplaySpec(fetch(token.value));
        if ShouldRewrite(spec, flow.httpMethod) {
          flow.url := newUrl.value;
          var replacement := spec.value.headers;
          var hs: seq<Header> := [];
          var i := 0;
          while i < |replacement|
            invariant 0 <= i <= |replacement|
            invariant hs == replacement[..i]
          {
            hs := hs + [replacement[i]];
            i := i + 1;
          }
          flow.headers := hs;
        }
      }
      var inScope := IsInScope(flow.url);
      flow.inScopeMark := Some(inScope);
      if !inScope && scopeDrop {
        flow.killed := true;
      }
    }

    /**
     * The `response` hook: when the request hook marked the flow in scope (or
     * never ran and the URL is in scope now), serialise the exchange and
     * queue the encoded envelope; the payload is lost when the queue is full.
     * `captured` is the same exchange as `flow`, as `flow_ingest` reads it,
     * and `encodePayload` is `_encode_payload`. When `flow_ingest` raises,
     * the hook ends there and nothing is queued.
     */
    method Response(flow: HttpFlow, captured: Serialize.CapturedFlow, codecs: Serialize.Codecs,
                    encodePayload: (Models.FlowCompact, Option<string>) -> string)
      requires Valid()
      modifies this
      ensures Valid()
      ensures scopeInclude == old(scopeInclude) && scopeExclude == old(scopeExclude) && scopeDrop == old(scopeDrop)
      ensures includeRegex == old(includeRegex) && excludeRegex == old(excludeRegex)
      ensures var ingested := Serialize.FlowIngest(captured, codecs);
              queue == if ShouldForward(flow.inScopeMark, IsInScope(flow.url)) && ingested.Some?
                       then Enqueue(old(queue), encodePayload(ingested.value.0, ingested.value.1))
                       else old(queue)
      ensures flow.inScopeMark == Some(false) ==> queue == old(queue)
    {
      var mark := flow.inScopeMark;
      if mark == Some(false) {
        return;
      }
      if mark.None? && !IsInScope(flow.url) {
        return;
      }
      assert mark.Some? ==> mark == Some(mark.value) && mark.value;
      var ingested := Serialize.FlowIngest(captured, codecs);
      if ingested.None? {
        return;
      }
      var (compact, respBodyB64) := ingested.value;
      var payload := encodePayload(compact, respBodyB64);
      queue := Enqueue(queue, payload);
    }
  }

  /** The addon's initial scope puts every URL in scope, so nothing is killed or held back at first. */
  lemma InitialScopeAll(url: string)
    ensures InScope(CompileAll(["*"]), CompileAll([]), url)
  {
    assert CompileAll(["*"]) == [CompileScopePattern("*")];
    InitialScopeAcceptsAll(url);
  }

  /** A URL without a replay token is never rewritten, whatever the backend would say. */
  lemma NoTokenNoRewrite(codec: UrlCodec, fetch: string -> Option<BackendReply>, m: string, url: string)
    requires forall i :: 0 <= i < |codec.split(url).query| ==> codec.split(url).query[i].0 != ReplayParam
    ensures ReplayRewrite(codec, fetch, m, url).None?
  {
  }

  /** Queueing keeps what was queued, in order, and adds at most the new payload at the tail. */
  lemma EnqueueIsFifo(q: seq<string>, payload: string)
    ensures Enqueue(q, payload) == q || Enqueue(q, payload) == q + [payload]
    ensures |q| <= IngestQueueCapacity ==> |Enqueue(q, payload)| <= IngestQueueCapacity
  {
  }
}
