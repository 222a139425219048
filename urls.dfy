/**
 * URLs as the program handles them: split into components, the query already
 * broken into `(key, value)` pairs, and put back together by the URL library.
 * The library itself (`urlsplit`/`parse_qsl` and `urlencode`/`urlunsplit`)
 * is not modelled; its two directions are passed in as a `UrlCodec`.
 */
module Urls {
  import opened Base

  datatype Url = Url(scheme: string, netloc: string, path: string, query: seq<(string, string)>, fragment: string)

  /** `split` is `urlsplit` followed by `parse_qsl(keep_blank_values=True)`; `unsplit` is `urlencode` then `urlunsplit`. */
  datatype UrlCodec = UrlCodec(split: string -> Url, unsplit: Url -> string)

  /** The reserved query parameter that carries a replay token. */
  const ReplayParam := "__nsp"

  /** The URL with `__nsp=<token>` appended as its last query pair. */
  function BrowserRecord(u: Url, token: string): (r: Url)
    ensures |r.query| == |u.query| + 1 && r.query[..|u.query|] == u.query && r.query[|u.query|] == (ReplayParam, token)
    ensures r.scheme == u.scheme && r.netloc == u.netloc && r.path == u.path && r.fragment == u.fragment
  {
    u.(query := u.query + [(ReplayParam, token)])
  }

  /** `_make_browser_url`: the browser-navigable URL that carries the token. */
  function MakeBrowserUrl(codec: UrlCodec, url: string, token: string): string {
    codec.unsplit(BrowserRecord(codec.split(url), token))
  }

  /** The query pairs whose key is not the replay parameter, in order. */
  function WithoutReplayParam(q: seq<(string, string)>): (r: seq<(string, string)>)
    ensures |r| <= |q|
    ensures forall i :: 0 <= i < |r| ==> r[i].0 != ReplayParam
  {
    if q == [] then []
    else
      var last := q[|q| - 1];
      WithoutReplayParam(q[..|q| - 1]) + (if last.0 == ReplayParam then [] else [last])
  }

  /** The position of the last replay-parameter pair, if any. */
  function LastReplayIndex(q: seq<(string, string)>): (r: Option<nat>)
    ensures r.None? <==> forall i :: 0 <= i < |q| ==> q[i].0 != ReplayParam
    ensures r.Some? ==> r.value < |q| && q[r.value].0 == ReplayParam
    ensures r.Some? ==> forall j :: r.value < j < |q| ==> q[j].0 != ReplayParam
  {
    if q == [] then None
    else if q[|q| - 1].0 == ReplayParam then Some(|q| - 1)
    else LastReplayIndex(q[..|q| - 1])
  }

  /** The value of the last replay-parameter pair, if any. */
  function LastReplayToken(q: seq<(string, string)>): (r: Option<string>)
    ensures r.None? <==> forall i :: 0 <= i < |q| ==> q[i].0 != ReplayParam
    ensures r.Some? ==> exists i :: 0 <= i < |q| && q[i] == (ReplayParam, r.value)
                                   && forall j :: i < j < |q| ==> q[j].0 != ReplayParam
  {
    match LastReplayIndex(q)
    case None => None
    case Some(i) =>
      assert q[i] == (ReplayParam, q[i].1);
      Some(q[i].1)
  }

  /** What `_strip_replay_param` returns: the token and the URL without it, or neither. */
  function StripSpec(codec: UrlCodec, url: string): (Option<string>, Option<string>) {
    var u := codec.split(url);
    match LastReplayToken(u.query)
    case None => (None, None)
    case Some(t) => (Some(t), Some(codec.unsplit(u.(query := WithoutReplayParam(u.query)))))
  }

  /** `_strip_replay_param`: one pass over the query pairs, keeping the last token seen. */
  method StripReplayParam(codec: UrlCodec, url: string) returns (token: Option<string>, rebuilt: Option<string>)
    ensures (token, rebuilt) == StripSpec(codec, url)
    ensures token.None? <==> rebuilt.None?
  {
    var parts := codec.split(url);
    var query := parts.query;
    token := None;
    var newQuery: seq<(string, string)> := [];
    var i := 0;
    while i < |query|
      invariant 0 <= i <= |query|
      invariant token == LastReplayToken(query[..i])
      invariant newQuery == WithoutReplayParam(query[..i])
    {
      assert query[..i + 1][..i] == query[..i];
      var (key, value) := query[i];
      if key == ReplayParam {
        token := Some(value);
      } else {
        newQuery := newQuery + [(key, value)];
      }
      i := i + 1;
    }
    assert query[..i] == query;
    if token.None? {
      return None, None;
    }
    rebuilt := Some(codec.unsplit(parts.(query := newQuery)));
  }

  /** A query without replay pairs passes through unchanged. */
  lemma {:induction false} WithoutReplayParamNoop(q: seq<(string, string)>)
    requires forall i :: 0 <= i < |q| ==> q[i].0 != ReplayParam
    ensures WithoutReplayParam(q) == q
  {
    if q != [] {
      WithoutReplayParamNoop(q[..|q| - 1]);
    }
  }

  /**
   * Stripping the browser URL built for `token` yields `token` again and the
   * original URL's query without replay pairs; when the original had none,
   * the rebuilt URL is the original as the library re-renders it. The
   * hypothesis is the library's own round trip on the browser URL.
   */
  lemma StripBrowserUrl(codec: UrlCodec, url: string, token: string)
    requires codec.split(MakeBrowserUrl(codec, url, token)) == BrowserRecord(codec.split(url), token)
    ensures var u := codec.split(url);
            StripSpec(codec, MakeBrowserUrl(codec, url, token))
            == (Some(token), Some(codec.unsplit(u.(query := WithoutReplayParam(u.query)))))
    ensures (forall i :: 0 <= i < |codec.split(url).query| ==> codec.split(url).query[i].0 != ReplayParam)
            ==> StripSpec(codec, MakeBrowserUrl(codec, url, token))
                == (Some(token), Some(codec.unsplit(codec.split(url))))
  {
    var u := codec.split(url);
    var b := BrowserRecord(u, token);
    assert b.query[..|b.query| - 1] == u.query;
    assert WithoutReplayParam(b.query) == WithoutReplayParam(u.query);
    assert b.(query := WithoutReplayParam(u.query)) == u.(query := WithoutReplayParam(u.query));
    if forall i :: 0 <= i < |u.query| ==> u.query[i].0 != ReplayParam {
      WithoutReplayParamNoop(u.query);
      assert u.(query := u.query) == u;
    }
  }
}
