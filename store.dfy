/**
 * The flow store: the `flows` table as a sequence of rows in rowid order,
 * each row a flow id, its rowid and its 16 other columns. Upserting an id
 * replaces every column and keeps the rowid; a new id gets the next rowid,
 * one past the largest in use. After every upsert the oldest rows by `ts`
 * are evicted down to `maxRows`.
 */
module FlowStore {
  import opened Base
  import opened Text
  import opened Json
  import opened Models

  const DefaultMaxRows: nat := 50000

  /** The non-key columns of a row. Header columns hold the parsed form of their JSON text. */
  datatype Columns = Columns(
    ts: real,
    httpMethod: string,
    url: string,
    host: Option<string>,
    path: Option<string>,
    status: Option<int>,
    duration: Option<real>,
    reqHeadersJson: Json,
    respHeadersJson: Json,
    reqSize: int,
    respSize: int,
    reqBodyB64: Option<string>,
    reqPreview: Option<string>,
    respPreview: Option<string>,
    respBodyB64: Option<string>,
    respBodyText: Option<string>)

  datatype Row = Row(rowid: nat, id: string, cols: Columns)

  /** Rowids strictly increase along the table and ids are unique (the primary key). */
  predicate WellFormed(rows: seq<Row>) {
    forall i, j :: 0 <= i < j < |rows| ==> rows[i].rowid < rows[j].rowid && rows[i].id != rows[j].id
  }

  /** The position of the row with key `id`. */
  function FindId(rows: seq<Row>, id: string): (r: Option<nat>)
    ensures r.Some? ==> r.value < |rows| && rows[r.value].id == id
    ensures r.None? ==> forall i :: 0 <= i < |rows| ==> rows[i].id != id
  {
    if rows == [] then None
    else if rows[|rows| - 1].id == id then Some(|rows| - 1)
    else FindId(rows[..|rows| - 1], id)
  }

  /** In a well-formed table the row with a given id is the one `FindId` names. */
  lemma UniqueId(rows: seq<Row>, x: Row)
    requires WellFormed(rows) && x in rows
    ensures FindId(rows, x.id).Some? && rows[FindId(rows, x.id).value] == x
  {
  }

  /** The method as stored: an empty method is written as `GET`. */
  function StoredMethod(m: string): (r: string)
    ensures r != ""
    ensures m != "" ==> r == m
  {
    if m == "" then "GET" else m
  }

  /** The 16 values an upsert binds for a flow. */
  function ColumnsOf(f: FlowCompact, respBodyB64: Option<string>, respBodyText: Option<string>): Columns {
    Columns(f.ts, StoredMethod(f.httpMethod), f.url, f.host, f.path, f.status, f.duration,
            HeadersToJson(f.reqHeaders), HeadersToJson(f.respHeaders), f.reqSize, f.respSize,
            f.reqBodyB64, f.reqPreview, f.respPreview, respBodyB64, respBodyText)
  }

  /** SQLite's choice of rowid for a new row: one past the largest, or 1 in an empty table. */
  function NextRowid(rows: seq<Row>): (r: nat)
    ensures WellFormed(rows) ==> forall i :: 0 <= i < |rows| ==> rows[i].rowid < r
  {
    if rows == [] then 1 else rows[|rows| - 1].rowid + 1
  }

  /** The table after `INSERT ... ON CONFLICT(id) DO UPDATE` of every non-key column. */
  function Upserted(rows: seq<Row>, id: string, cols: Columns): seq<Row> {
    match FindId(rows, id)
    case Some(i) => rows[i := Row(rows[i].rowid, id, cols)]
    case None => rows + [Row(NextRowid(rows), id, cols)]
  }

  /** The rowid of `id` after the upsert: the old one when the id existed. */
  function RowidAfterUpsert(rows: seq<Row>, id: string): nat {
    match FindId(rows, id)
    case Some(i) => rows[i].rowid
    case None => NextRowid(rows)
  }

  /**
   * Upserting an existing id keeps the row count and the row's rowid,
   * replaces all of its columns and touches no other row; a new id is
   * appended with a fresh rowid. Either way the table stays well formed and
   * the id's row carries the returned rowid.
   */
  lemma UpsertReplacesRow(rows: seq<Row>, id: string, cols: Columns)
    requires WellFormed(rows)
    ensures var r := Upserted(rows, id, cols);
      && WellFormed(r)
      && FindId(r, id).Some?
      && r[FindId(r, id).value] == Row(RowidAfterUpsert(rows, id), id, cols)
      && (FindId(rows, id).Some? ==> |r| == |rows| && RowidAfterUpsert(rows, id) == rows[FindId(rows, id).value].rowid)
      && (FindId(rows, id).None? ==> |r| == |rows| + 1 && r[..|rows|] == rows)
      && (forall i :: 0 <= i < |rows| && rows[i].id != id ==> r[i] == rows[i])
  {
    var r := Upserted(rows, id, cols);
    var x := Row(RowidAfterUpsert(rows, id), id, cols);
    assert x in r;
    UniqueId(r, x);
  }

  /** The first position holding a row with the smallest `ts`. */
  function OldestIndex(rows: seq<Row>): (m: nat)
    requires rows != []
    ensures m < |rows|
    ensures forall i :: 0 <= i < |rows| ==> rows[m].cols.ts <= rows[i].cols.ts
    ensures forall i :: 0 <= i < m ==> rows[m].cols.ts < rows[i].cols.ts
  {
    if |rows| == 1 then 0
    else
      var m := OldestIndex(rows[..|rows| - 1]);
      if rows[|rows| - 1].cols.ts < rows[m].cols.ts then |rows| - 1 else m
  }

  function RemoveAt(rows: seq<Row>, k: nat): (r: seq<Row>)
    requires k < |rows|
    ensures |r| == |rows| - 1
    ensures forall i :: 0 <= i < |r| ==> r[i] == if i < k then rows[i] else rows[i + 1]
  {
    rows[..k] + rows[k + 1..]
  }

  lemma InRemoveAt(rows: seq<Row>, k: nat, x: Row)
    requires k < |rows| && x in rows && x != rows[k]
    ensures x in RemoveAt(rows, k)
  {
    var i :| 0 <= i < |rows| && rows[i] == x;
    assert x == RemoveAt(rows, k)[if i < k then i else i - 1];
  }

  /**
   * The table after `_prune_if_needed`: unchanged when it holds at most
   * `maxRows` rows, otherwise the oldest rows are deleted one by one until
   * `maxRows` remain (among rows with equal `ts` the lowest rowid goes first).
   */
  function PruneOldest(rows: seq<Row>, maxRows: nat): (r: seq<Row>)
    decreases |rows|
    ensures |r| == Min(|rows|, maxRows)
    ensures forall x :: x in r ==> x in rows
    ensures |rows| <= maxRows ==> r == rows
  {
    if |rows| <= maxRows then rows
    else
      var rest := RemoveAt(rows, OldestIndex(rows));
      assert forall x :: x in rest ==> x in rows;
      PruneOldest(rest, maxRows)
  }

  /** Every evicted row is at least as old as every kept row. */
  lemma {:induction false} PruneEvictsOldest(rows: seq<Row>, maxRows: nat)
    ensures var r := PruneOldest(rows, maxRows);
      forall x, y :: x in rows && x !in r && y in r ==> x.cols.ts <= y.cols.ts
    decreases |rows|
  {
    if |rows| > maxRows {
      var m := OldestIndex(rows);
      var rest := RemoveAt(rows, m);
      var r := PruneOldest(rest, maxRows);
      assert r == PruneOldest(rows, maxRows);
      PruneEvictsOldest(rest, maxRows);
      forall x, y | x in rows && x !in r && y in r
        ensures x.cols.ts <= y.cols.ts
      {
        assert y in rows;
        if x != rows[m] {
          InRemoveAt(rows, m, x);
        }
      }
    }
  }

  lemma {:induction false} PruneWellFormed(rows: seq<Row>, maxRows: nat)
    requires WellFormed(rows)
    ensures WellFormed(PruneOldest(rows, maxRows))
    decreases |rows|
  {
    if |rows| > maxRows {
      var rest := RemoveAt(rows, OldestIndex(rows));
      assert WellFormed(rest) by {
        forall i, j | 0 <= i < j < |rest|
          ensures rest[i].rowid < rest[j].rowid && rest[i].id != rest[j].id
        {
          var i' := if i < OldestIndex(rows) then i else i + 1;
          var j' := if j < OldestIndex(rows) then j else j + 1;
          assert rest[i] == rows[i'] && rest[j] == rows[j'] && i' < j';
        }
      }
      PruneWellFormed(rest, maxRows);
    }
  }

  /**
   * The rowid is read before pruning: a new flow older than every stored row,
   * arriving at a full table, gets a rowid and is evicted by the same upsert.
   */
  lemma EvictedOnArrival(rows: seq<Row>, id: string, cols: Columns, maxRows: nat)
    requires WellFormed(rows) && FindId(rows, id).None? && |rows| == maxRows
    requires forall i :: 0 <= i < |rows| ==> cols.ts < rows[i].cols.ts
    ensures RowidAfterUpsert(rows, id) >= 1
    ensures FindId(PruneOldest(Upserted(rows, id, cols), maxRows), id).None?
  {
    var u := Upserted(rows, id, cols);
    assert u == rows + [Row(NextRowid(rows), id, cols)];
    var m := OldestIndex(u);
    assert u[|rows|].cols.ts < u[m].cols.ts || m == |rows|;
    assert RemoveAt(u, m) == rows;
  }

  /** The items of a parsed header column that are `[str, str]` pairs; nothing for NULL, `""` or a non-list. */
  function DecodedHeaders(raw: Option<Json>): seq<Header> {
    match raw
    case Some(JArr(items)) => StringPairs(items)
    case _ => []
  }

  /** `_decode_headers_json`, the accumulator loop over the parsed list. */
  method DecodeHeadersJson(raw: Option<Json>) returns (out: seq<Header>)
    ensures out == DecodedHeaders(raw)
  {
    out := [];
    if raw.None? || !raw.value.JArr? {
      return;
    }
    var items := raw.value.items;
    var i := 0;
    while i < |items|
      invariant 0 <= i <= |items|
      invariant out == StringPairs(items[..i])
    {
      assert items[..i + 1][..i] == items[..i];
      if IsStringPair(items[i]) {
        out := out + [(items[i].items[0].s, items[i].items[1].s)];
      }
      i := i + 1;
    }
    assert items[..i] == items;
  }

  /** A stored header list decodes to itself. */
  lemma DecodeStoredHeaders(hs: seq<Header>)
    ensures DecodedHeaders(Some(HeadersToJson(hs))) == hs
  {
    StringPairsOfHeaders(hs);
  }

  /** The value of the first pair whose lower-cased name is `needle`. */
  function FirstValue(hs: seq<Header>, needle: string): (r: Option<string>)
    ensures r.Some? ==> exists i :: 0 <= i < |hs| && Lower(hs[i].0) == needle && hs[i].1 == r.value
                          && forall k :: 0 <= k < i ==> Lower(hs[k].0) != needle
    ensures r.None? ==> forall i :: 0 <= i < |hs| ==> Lower(hs[i].0) != needle
  {
    if hs == [] then None
    else if Lower(hs[0].0) == needle then Some(hs[0].1)
    else
      var r := FirstValue(hs[1..], needle);
      assert forall i :: 1 <= i < |hs| ==> hs[i] == hs[1..][i - 1];
      r
  }

  /** `_header_value`: the loop with an early return. */
  method HeaderValue(headers: seq<Header>, name: string) returns (r: Option<string>)
    ensures r == FirstValue(headers, Lower(name))
  {
    var needle := Lower(name);
    var i := 0;
    while i < |headers|
      invariant 0 <= i <= |headers|
      invariant FirstValue(headers, needle) == FirstValue(headers[i..], needle)
    {
      if Lower(headers[i].0) == needle {
        return Some(headers[i].1);
      }
      assert headers[i..][1..] == headers[i + 1..];
      i := i + 1;
    }
    return None;
  }

  /** What `get_resp_body` returns: the base64 body, the response content type and the size. */
  datatype RespBody = RespBody(bodyB64: string, contentType: Option<string>, size: int)

  function RespBodyIn(rows: seq<Row>, id: string): (r: Option<RespBody>)
    ensures r.Some? ==> r.value.bodyB64 != ""
    ensures FindId(rows, id).None? ==> r.None?
    ensures FindId(rows, id).Some? ==>
              var c := rows[FindId(rows, id).value].cols;
              (r.None? <==> c.respBodyB64.None? || c.respBodyB64.value == "")
    ensures r.Some? ==> r.value.bodyB64 == rows[FindId(rows, id).value].cols.respBodyB64.value
  {
    match FindId(rows, id)
    case None => None
    case Some(i) =>
      var c := rows[i].cols;
      if c.respBodyB64.None? || c.respBodyB64.value == "" then None
      else Some(RespBody(c.respBodyB64.value, FirstValue(DecodedHeaders(Some(c.respHeadersJson)), "content-type"), c.respSize))
  }

  /** The flow a row reads back as. */
  function FlowOfRow(r: Row): FlowCompact {
    var c := r.cols;
    FlowCompact(r.id, c.ts, c.httpMethod, c.url, c.host, c.path, c.status, c.duration,
                DecodedHeaders(Some(c.reqHeadersJson)), DecodedHeaders(Some(c.respHeadersJson)),
                c.reqSize, c.respSize, c.reqBodyB64, c.reqPreview, c.respPreview)
  }

  function FlowIn(rows: seq<Row>, id: string): (r: Option<FlowCompact>)
    ensures r.Some? <==> FindId(rows, id).Some?
    ensures r.Some? ==> r.value.id == id
  {
    match FindId(rows, id)
    case None => None
    case Some(i) => Some(FlowOfRow(rows[i]))
  }

  /** A flow as the store gives it back: the same flow, an empty method read as `GET`. */
  function StoredFlow(f: FlowCompact): FlowCompact {
    f.(httpMethod := StoredMethod(f.httpMethod))
  }

  /**
   * Reading a flow back after its upsert: as long as it survived the prune
   * (always, when the table did not overflow) `get_flow` gives the flow with
   * its method normalised, and `get_resp_body` gives the stored body, the
   * first `content-type` response header and the response size, or nothing
   * when no body was stored.
   */
  lemma UpsertThenRead(rows: seq<Row>, f: FlowCompact, b64: Option<string>, text: Option<string>, maxRows: nat)
    requires WellFormed(rows)
    ensures var u := Upserted(rows, f.id, ColumnsOf(f, b64, text));
      var after := PruneOldest(u, maxRows);
      && (|u| <= maxRows ==> FindId(after, f.id).Some?)
      && (FindId(after, f.id).Some? ==>
            && FlowIn(after, f.id) == Some(StoredFlow(f))
            && RespBodyIn(after, f.id) ==
                 (if b64.None? || b64.value == "" then None
                  else Some(RespBody(b64.value, FirstValue(f.respHeaders, "content-type"), f.respSize))))
  {
    var cols := ColumnsOf(f, b64, text);
    var u := Upserted(rows, f.id, cols);
    var after := PruneOldest(u, maxRows);
    UpsertReplacesRow(rows, f.id, cols);
    var x := Row(RowidAfterUpsert(rows, f.id), f.id, cols);
    if FindId(after, f.id).Some? {
      var y := after[FindId(after, f.id).value];
      assert y in u;
      UniqueId(u, y);
      assert y == x;
      DecodeStoredHeaders(f.reqHeaders);
      DecodeStoredHeaders(f.respHeaders);
    }
  }

  /** The `flows` table and the eviction threshold it was opened with. */
  class Store {
    const maxRows: nat
    var rows: seq<Row>

    ghost predicate Valid()
      reads this
    {
      WellFormed(rows)
    }

    constructor (maxRows: nat)
      ensures Valid() && this.maxRows == maxRows && rows == []
    {
      this.maxRows := maxRows;
      rows := [];
    }

    /** The position of the oldest row, found by a scan. */
    method OldestRow() returns (m: nat)
      requires rows != []
      ensures m == OldestIndex(rows)
    {
      m := 0;
      var i := 1;
      while i < |rows|
        invariant 1 <= i <= |rows|
        invariant m == OldestIndex(rows[..i])
      {
        assert rows[..i + 1][..i] == rows[..i];
        if rows[i].cols.ts < rows[m].cols.ts {
          m := i;
        }
        i := i + 1;
      }
      assert rows[..i] == rows;
    }

    /** `_prune_if_needed`: delete `count - maxRows` rows, oldest first. */
    method PruneIfNeeded()
      requires Valid()
      modifies this
      ensures Valid()
      ensures rows == PruneOldest(old(rows), maxRows)
    {
      var total := |rows|;
      if total <= maxRows {
        return;
      }
      var toDelete := total - maxRows;
      while toDelete > 0
        invariant toDelete == |rows| - maxRows || (toDelete == 0 && |rows| == maxRows)
        invariant toDelete >= 0 && |rows| >= maxRows
        invariant PruneOldest(rows, maxRows) == PruneOldest(old(rows), maxRows)
        invariant WellFormed(rows)
        decreases toDelete
      {
        var m := OldestRow();
        PruneWellFormed(rows, |rows| - 1);
        rows := RemoveAt(rows, m);
        toDelete := toDelete - 1;
      }
    }

    /**
     * `upsert_flow`: write the row, read its rowid, then prune. The returned
     * rowid is the one the row had right after the write, even when the
     * prune then evicts it.
     */
    method UpsertFlow(f: FlowCompact, respBodyB64: Option<string>, respBodyText: Option<string>)
      returns (seqNo: nat)
      requires Valid()
      modifies this
      ensures Valid()
      ensures seqNo == RowidAfterUpsert(old(rows), f.id)
      ensures rows == PruneOldest(Upserted(old(rows), f.id, ColumnsOf(f, respBodyB64, respBodyText)), maxRows)
    {
      var cols := ColumnsOf(f, respBodyB64, respBodyText);
      UpsertReplacesRow(rows, f.id, cols);
      var found := FindId(rows, f.id);
      if found.Some? {
        var i := found.value;
        seqNo := rows[i].rowid;
        rows := rows[i := Row(seqNo, f.id, cols)];
      } else {
        seqNo := NextRowid(rows);
        rows := rows + [Row(seqNo, f.id, cols)];
      }
      PruneIfNeeded();
    }

    /** `get_resp_body`. */
    function GetRespBody(id: string): (r: Option<RespBody>)
      reads this
      ensures r.Some? ==> r.value.bodyB64 != ""
    {
      RespBodyIn(rows, id)
    }

    /** `get_flow`. */
    function GetFlow(id: string): (r: Option<FlowCompact>)
      reads this
      ensures r.Some? ==> r.value.id == id
    {
      FlowIn(rows, id)
    }
  }
}
