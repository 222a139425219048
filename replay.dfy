/**
 * The replay cache: a token-addressed map of captured requests that lets a
 * browser re-issue one of them. Entries live 60 seconds; expired ones are
 * dropped lazily, on every access, never by a background sweep.
 */
module Replay {
  import opened Base
  import opened Text
  import opened Headers
  import opened Urls
  import opened Upstream

  const TtlSeconds: real := 60.0

  /** `(ts, method, url, headers, body)`. */
  datatype Entry = Entry(ts: real, httpMethod: string, url: string, headers: seq<Header>, body: Bytes)

  predicate Expired(e: Entry, now: real) {
    now - e.ts > TtlSeconds
  }

  /**
   * The cache after pruning at `now`: exactly the entries aged at most 60
   * seconds, each unchanged.
   */
  function Pruned(m: map<string, Entry>, now: real): (r: map<string, Entry>)
    ensures forall k :: k in r <==> k in m && now - m[k].ts <= TtlSeconds
    ensures forall k :: k in r ==> r[k] == m[k]
  {
    map k | k in m && !Expired(m[k], now) :: m[k]
  }

  /** An expired entry is indistinguishable from an absent one once the cache is pruned. */
  lemma ExpiredIsAbsent(m: map<string, Entry>, token: string, e: Entry, now: real)
    requires Expired(e, now)
    ensures Pruned(m[token := e], now) == Pruned(m - {token}, now)
  {
  }

  /**
   * Resolving is a read: a second resolve at a later time, while the entry
   * is still within its TTL, finds the same entry.
   */
  lemma ResolveAgain(m: map<string, Entry>, token: string, t1: real, t2: real)
    requires t1 <= t2
    requires token in m && t2 - m[token].ts <= TtlSeconds
    ensures token in Pruned(m, t1) && token in Pruned(Pruned(m, t1), t2)
    ensures Pruned(Pruned(m, t1), t2)[token] == m[token]
  {
  }

  /** What the browser can be sent to after opening a replay. */
  datatype OpenReply = OpenReply(url: string, browserUrl: Option<string>)

  /** The body as posted: text (already UTF-8 encoded) or base64 (already decoded; `None` when not valid base64). */
  datatype OpenBody = TextBody(utf8: Bytes) | Base64Body(decoded: Option<Bytes>)

  /** The two client errors of `replay_open`, both HTTP 400. */
  datatype OpenError = UrlNotHttp | InvalidBodyB64

  predicate IsHttpUrl(url: string) {
    StartsWith(url, "http://") || StartsWith(url, "https://")
  }

  class ReplayCache {
    var entries: map<string, Entry>

    constructor ()
      ensures entries == map[]
    {
      entries := map[];
    }

    /** `_prune_replay`: collect the expired keys, then remove them. */
    method Prune(now: real)
      modifies this
      ensures entries == Pruned(old(entries), now)
    {
      var expired: set<string> := {};
      var todo := entries.Keys;
      while todo != {}
        invariant todo <= entries.Keys
        invariant expired == set k | k in entries.Keys - todo && Expired(entries[k], now)
        decreases todo
      {
        var k :| k in todo;
        if Expired(entries[k], now) {
          expired := expired + {k};
        }
        todo := todo - {k};
      }
      entries := entries - expired;
    }

    /**
     * `replay_open` with the fresh token and the clock passed in. A URL that
     * is not http(s) after stripping, or a body that is not valid base64, is
     * rejected before the cache is touched; otherwise the cache is pruned and
     * the request stored under `token` with its method stripped and
     * upper-cased and its hop-by-hop headers removed.
     */
    method Open(httpMethod: string, url: string, headers: seq<Header>, body: OpenBody,
                token: string, now: real, codec: UrlCodec)
      returns (r: Result<OpenReply, OpenError>)
      modifies this
      ensures !IsHttpUrl(Strip(url)) ==> r == Failure(UrlNotHttp) && entries == old(entries)
      ensures IsHttpUrl(Strip(url)) && body == Base64Body(None) ==>
                r == Failure(InvalidBodyB64) && entries == old(entries)
      ensures IsHttpUrl(Strip(url)) && body != Base64Body(None) ==>
                var bytes := if body.TextBody? then body.utf8 else body.decoded.value;
                var m := Upper(Strip(httpMethod));
                && entries == Pruned(old(entries), now)[token := Entry(now, m, Strip(url), RemoveNamed(headers, HopByHopHeaders), bytes)]
                && r.Success? && r.value.url == "/replay/" + token
                && (r.value.browserUrl.Some? <==> m == "GET" && bytes == [])
                && (r.value.browserUrl.Some? ==> r.value.browserUrl.value == MakeBrowserUrl(codec, Strip(url), token))
    {
      var u := Strip(url);
      if !IsHttpUrl(u) {
        return Failure(UrlNotHttp);
      }
      var m := Upper(Strip(httpMethod));
      var filtered := FilterUpstreamHeaders(headers);
      var bytes: Bytes;
      match body {
        case Base64Body(decoded) =>
          if decoded.None? {
            return Failure(InvalidBodyB64);
          }
          bytes := decoded.value;
        case TextBody(utf8) =>
          bytes := utf8;
      }
      assert bytes == if body.TextBody? then body.utf8 else body.decoded.value;
      Prune(now);
      entries := entries[token := Entry(now, m, u, filtered, bytes)];
      var browser: Option<string> := None;
      if m == "GET" && bytes == [] {
        browser := Some(MakeBrowserUrl(codec, u, token));
      }
      r := Success(OpenReply("/replay/" + token, browser));
    }

    /**
     * The lookup shared by `replay_get_spec` and `replay_get`: prune at `now`,
     * then read the entry without removing it.
     */
    method Resolve(token: string, now: real) returns (e: Option<Entry>)
      modifies this
      ensures entries == Pruned(old(entries), now)
      ensures e.Some? <==> token in old(entries) && now - old(entries)[token].ts <= TtlSeconds
      ensures e.Some? ==> e.value == old(entries)[token]
    {
      Prune(now);
      e := if token in entries then Some(entries[token]) else None;
    }
  }
}
