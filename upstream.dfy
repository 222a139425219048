/**
 * Header filtering on the replay path: hop-by-hop headers (section 13.5.1 of
 * RFC 2616, plus `content-length` and `content-encoding`) are not forwarded
 * upstream nor copied back from the upstream response.
 */
module Upstream {
  import opened Base
  import opened Text
  import opened Headers

  /** The nine names, compared after lower-casing. */
  const HopByHopHeaders: set<string> := {
    "connection", "proxy-connection", "keep-alive", "te", "trailer",
    "transfer-encoding", "upgrade", "content-length", "content-encoding"
  }

  /** `_filter_upstream_headers`. */
  method FilterUpstreamHeaders(headers: seq<Header>) returns (out: seq<Header>)
    ensures out == RemoveNamed(headers, HopByHopHeaders)
  {
    out := [];
    var i := 0;
    while i < |headers|
      invariant 0 <= i <= |headers|
      invariant out == RemoveNamed(headers[..i], HopByHopHeaders)
    {
      assert headers[..i + 1][..i] == headers[..i];
      var (key, value) := headers[i];
      if Lower(key) !in HopByHopHeaders {
        out := out + [(key, value)];
      }
      i := i + 1;
    }
    assert headers[..i] == headers;
  }

  /** The upstream response headers with hop-by-hop ones removed and every `Location` made absolute. */
  function RawHeadersSpec(hs: seq<Header>, join: string -> string): (r: seq<Header>)
    ensures |r| <= |hs|
  {
    if hs == [] then []
    else
      var init := hs[..|hs| - 1];
      var (key, value) := hs[|hs| - 1];
      RawHeadersSpec(init, join)
      + if Lower(key) in HopByHopHeaders then []
        else if Lower(key) == "location" then [(key, join(value))]
        else [(key, value)]
  }

  /**
   * Rewrites the value of every `location` header with `join`, leaving the
   * rest alone. It is the independent reference for the join half of the
   * raw-header pass: `RawHeadersIsFilterThenJoin` proves that pass equal to
   * hop-by-hop filtering followed by this.
   */
  function JoinLocations(hs: seq<Header>, join: string -> string): (r: seq<Header>)
    ensures |r| == |hs|
    ensures forall i :: 0 <= i < |hs| ==> r[i].0 == hs[i].0
    ensures forall i :: 0 <= i < |hs| ==> r[i].1 == if Lower(hs[i].0) == "location" then join(hs[i].1) else hs[i].1
  {
    seq(|hs|, i requires 0 <= i < |hs| => if Lower(hs[i].0) == "location" then (hs[i].0, join(hs[i].1)) else hs[i])
  }

  /**
   * `_filtered_raw_headers`, given the response's raw headers (already decoded
   * to text) and `urljoin(request_url, _)` as `join`.
   */
  method FilteredRawHeaders(raw: seq<Header>, join: string -> string) returns (out: seq<Header>)
    ensures out == RawHeadersSpec(raw, join)
  {
    out := [];
    var i := 0;
    while i < |raw|
      invariant 0 <= i <= |raw|
      invariant out == RawHeadersSpec(raw[..i], join)
    {
      assert raw[..i + 1][..i] == raw[..i];
      var (key, value) := raw[i];
      var keyLower := Lower(key);
      if keyLower in HopByHopHeaders {
      } else if keyLower == "location" {
        out := out + [(key, join(value))];
      } else {
        out := out + [(key, value)];
      }
      i := i + 1;
    }
    assert raw[..i] == raw;
  }

  /** Filtering the response headers is the request-side filter followed by the `Location` rewrite. */
  lemma {:induction false} RawHeadersIsFilterThenJoin(hs: seq<Header>, join: string -> string)
    ensures RawHeadersSpec(hs, join) == JoinLocations(RemoveNamed(hs, HopByHopHeaders), join)
    decreases |hs|
  {
    if hs != [] {
      var init := hs[..|hs| - 1];
      RawHeadersIsFilterThenJoin(init, join);
      var last := hs[|hs| - 1];
      var a := RemoveNamed(init, HopByHopHeaders);
      var tail: seq<Header> := if Lower(last.0) in HopByHopHeaders then [] else [last];
      assert RemoveNamed(hs, HopByHopHeaders) == a + tail;
      assert JoinLocations(a + tail, join) == JoinLocations(a, join) + JoinLocations(tail, join);
    }
  }
}
