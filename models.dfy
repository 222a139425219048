/**
 * The frozen records every component exchanges. Dafny datatypes are values,
 * so, like the frozen dataclasses they model, they never change after
 * construction.
 */
module Models {
  import opened Base

  /** One captured exchange as the capturing agent reports it. */
  datatype FlowCompact = FlowCompact(
    id: string,
    ts: real,
    httpMethod: string,
    url: string,
    host: Option<string>,
    path: Option<string>,
    status: Option<int>,
    duration: Option<real>,
    reqHeaders: seq<Header>,
    respHeaders: seq<Header>,
    reqSize: int,
    respSize: int,
    reqBodyB64: Option<string>,
    reqPreview: Option<string>,
    respPreview: Option<string>)

  /** The listing projection of a flow: its scalar fields and the store's sequence number. */
  datatype FlowSummary = FlowSummary(
    seqNo: int,
    id: string,
    ts: real,
    httpMethod: string,
    url: string,
    host: Option<string>,
    path: Option<string>,
    status: Option<int>,
    duration: Option<real>,
    reqSize: int,
    respSize: int)

  datatype Order = Asc | Desc

  /** A listing request: paging, structured filters, sort key and direction. */
  datatype FlowQuery = FlowQuery(
    limit: int,
    offset: int,
    q: Option<string>,
    host: Option<string>,
    httpMethod: Option<string>,
    status: Option<int>,
    urlContains: Option<string>,
    bodyContains: Option<string>,
    durationMin: Option<real>,
    durationMax: Option<real>,
    respSizeMin: Option<int>,
    respSizeMax: Option<int>,
    sort: Option<string>,
    order: Option<Order>)

  /** `FlowQuery()` with every default: 200 rows from offset 0, no filter, no sort. */
  function DefaultFlowQuery(): (r: FlowQuery)
    ensures r.limit == 200 && r.offset == 0
    ensures r.q.None? && r.host.None? && r.httpMethod.None? && r.status.None?
    ensures r.urlContains.None? && r.bodyContains.None?
    ensures r.durationMin.None? && r.durationMax.None? && r.respSizeMin.None? && r.respSizeMax.None?
    ensures r.sort.None? && r.order.None?
  {
    FlowQuery(200, 0, None, None, None, None, None, None, None, None, None, None, None, None)
  }

  /** The result of a one-shot repeat. */
  datatype RepeatResponse = RepeatResponse(
    status: int,
    headers: string,
    preview: string,
    bodyFirst64kB64: string,
    bytes: int)

  /** `Literal["flow"]`: the only event type there is. */
  datatype EventType = FlowEvent

  datatype SseEvent = SseEvent(eventType: EventType, data: FlowSummary)

  /** The summary the ingest path builds field by field from a flow and its sequence number. */
  function Summarize(f: FlowCompact, seqNo: int): (r: FlowSummary)
    ensures r.seqNo == seqNo && r.id == f.id && r.ts == f.ts && r.httpMethod == f.httpMethod && r.url == f.url
    ensures r.host == f.host && r.path == f.path && r.status == f.status && r.duration == f.duration
    ensures r.reqSize == f.reqSize && r.respSize == f.respSize
  {
    FlowSummary(seqNo, f.id, f.ts, f.httpMethod, f.url, f.host, f.path, f.status, f.duration,
                f.reqSize, f.respSize)
  }

  /** Two flows that differ only in headers, request body and previews have the same summary. */
  lemma SummaryIgnoresBodies(f: FlowCompact, g: FlowCompact, seqNo: int)
    requires f.id == g.id && f.ts == g.ts && f.httpMethod == g.httpMethod && f.url == g.url
    requires f.host == g.host && f.path == g.path && f.status == g.status && f.duration == g.duration
    requires f.reqSize == g.reqSize && f.respSize == g.respSize
    ensures Summarize(f, seqNo) == Summarize(g, seqNo)
  {
  }
}
