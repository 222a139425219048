/**
 * The listing statement: `_order_by_sql` as a list of sort terms rendered to
 * SQL, what that ordering means on two rows of the table (with SQLite's
 * ordering of NULLs, numbers and text), and the text and parameters
 * `list_flows` hands to SQLite.
 */
module FlowListing {
  import opened Base
  import opened Text
  import opened Models
  import opened FlowStore
  import opened FlowQueries

  datatype Direction = Ascending | Descending

  /** `"ASC" if order == "asc" else "DESC"`. */
  function DirectionOf(order: Option<Order>): (d: Direction)
    ensures d == Ascending <==> order == Some(Asc)
  {
    if order == Some(Asc) then Ascending else Descending
  }

  function DirectionText(d: Direction): string {
    match d
    case Ascending => "ASC"
    case Descending => "DESC"
  }

  /** A sort expression: a column, or the 0/1 test `col IS NULL`. */
  datatype SortExpr = ColumnOf(col: Column) | IsNull(col: Column)

  datatype SortTerm = SortTerm(expr: SortExpr, dir: Direction)

  /** The `column_map` of `_order_by_sql`. */
  function SortColumn(key: string): Option<Column> {
    if key == "url" then Some(Url)
    else if key == "method" then Some(Method)
    else if key == "size" then Some(RespSize)
    else None
  }

  const NewestFirst := SortTerm(ColumnOf(Ts), Descending)

  /** The ORDER BY terms `_order_by_sql` writes for a sort key and an order. */
  function OrderSpec(sort: Option<string>, order: Option<Order>): (r: seq<SortTerm>)
    ensures r != []
  {
    var dir := DirectionOf(order);
    if sort.None? then [NewestFirst]
    else if sort.value == "num" then [SortTerm(ColumnOf(Rowid), dir)]
    else if SortColumn(sort.value).Some? then [SortTerm(ColumnOf(SortColumn(sort.value).value), dir), NewestFirst]
    else if sort.value == "status" then [SortTerm(IsNull(Status), Ascending), SortTerm(ColumnOf(Status), dir), NewestFirst]
    else if sort.value == "time" then [SortTerm(IsNull(Duration), Ascending), SortTerm(ColumnOf(Duration), dir), NewestFirst]
    else [NewestFirst]
  }

  function ExprText(e: SortExpr): string {
    match e
    case ColumnOf(c) => ColumnName(c)
    case IsNull(c) => ColumnName(c) + " IS NULL"
  }

  function TermText(t: SortTerm): string {
    ExprText(t.expr) + " " + DirectionText(t.dir)
  }

  function TermTexts(ts: seq<SortTerm>): (r: seq<string>)
    ensures |r| == |ts|
  {
    seq(|ts|, i requires 0 <= i < |ts| => TermText(ts[i]))
  }

  /** `_order_by_sql`: `ORDER BY` and the terms, comma-separated. */
  function OrderBySql(sort: Option<string>, order: Option<Order>): string {
    "ORDER BY " + Join(", ", TermTexts(OrderSpec(sort, order)))
  }

  // ----- What an ordering means -----

  /** A value as SQLite compares it: NULL first, then numbers, then text. */
  datatype SqlValue = Null | Number(n: real) | Text(s: string)

  function OptionalText(s: Option<string>): SqlValue {
    if s.Some? then Text(s.value) else Null
  }

  function ColumnValue(r: Row, c: Column): SqlValue {
    match c
    case Url => Text(r.cols.url)
    case ReqPreview => OptionalText(r.cols.reqPreview)
    case RespPreview => OptionalText(r.cols.respPreview)
    case RespBodyText => OptionalText(r.cols.respBodyText)
    case Host => OptionalText(r.cols.host)
    case Method => Text(r.cols.httpMethod)
    case Status => if r.cols.status.Some? then Number(r.cols.status.value as real) else Null
    case Duration => if r.cols.duration.Some? then Number(r.cols.duration.value) else Null
    case RespSize => Number(r.cols.respSize as real)
    case Ts => Number(r.cols.ts)
    case Rowid => Number(r.rowid as real)
    case Id => Text(r.id)
    case Path => OptionalText(r.cols.path)
    case ReqSize => Number(r.cols.reqSize as real)
  }

  function ExprValue(r: Row, e: SortExpr): SqlValue {
    match e
    case ColumnOf(c) => ColumnValue(r, c)
    case IsNull(c) => Number(if ColumnValue(r, c).Null? then 1.0 else 0.0)
  }

  function Sign(b: bool, c: bool): int {
    if b then -1 else if c then 1 else 0
  }

  /** Text under the BINARY collation: code point by code point, a prefix first. */
  function CompareText(a: string, b: string): int
    decreases |a|
  {
    if a == [] || b == [] then Sign(a == [] && b != [], a != [] && b == [])
    else if a[0] != b[0] then Sign(a[0] < b[0], a[0] > b[0])
    else CompareText(a[1..], b[1..])
  }

  function Rank(v: SqlValue): nat {
    match v
    case Null => 0
    case Number(_) => 1
    case Text(_) => 2
  }

  /** SQLite's order on values of mixed storage classes: -1, 0 or 1. */
  function CompareValues(a: SqlValue, b: SqlValue): int {
    if Rank(a) != Rank(b) then Sign(Rank(a) < Rank(b), Rank(a) > Rank(b))
    else match a
      case Null => 0
      case Number(x) => Sign(x < b.n, x > b.n)
      case Text(s) => CompareText(s, b.s)
  }

  /** Where `a` sorts relative to `b` under the terms: the first term that tells them apart decides. */
  function CompareRows(terms: seq<SortTerm>, a: Row, b: Row): int
    decreases |terms|
  {
    if terms == [] then 0
    else
      var c := CompareValues(ExprValue(a, terms[0].expr), ExprValue(b, terms[0].expr));
      var c' := if terms[0].dir == Ascending then c else -c;
      if c' != 0 then c' else CompareRows(terms[1..], a, b)
  }

  /** `a` is listed before `b`. */
  predicate Before(terms: seq<SortTerm>, a: Row, b: Row) {
    CompareRows(terms, a, b) < 0
  }

  lemma {:induction false} CompareTextAntisymmetric(a: string, b: string)
    ensures CompareText(a, b) == -CompareText(b, a)
    ensures CompareText(a, b) == 0 <==> a == b
    decreases |a|
  {
    if a != [] && b != [] && a[0] == b[0] {
      CompareTextAntisymmetric(a[1..], b[1..]);
      assert a == [a[0]] + a[1..] && b == [b[0]] + b[1..];
    }
  }

  lemma CompareValuesAntisymmetric(a: SqlValue, b: SqlValue)
    ensures CompareValues(a, b) == -CompareValues(b, a)
    ensures CompareValues(a, b) == 0 <==> a == b
  {
    if a.Text? && b.Text? {
      CompareTextAntisymmetric(a.s, b.s);
    }
  }

  /** No two rows come before each other, whatever the terms. */
  lemma {:induction false} CompareRowsAntisymmetric(terms: seq<SortTerm>, a: Row, b: Row)
    ensures CompareRows(terms, a, b) == -CompareRows(terms, b, a)
    decreases |terms|
  {
    if terms != [] {
      var e := terms[0].expr;
      CompareValuesAntisymmetric(ExprValue(a, e), ExprValue(b, e));
      CompareRowsAntisymmetric(terms[1..], a, b);
    }
  }

  /** A term on which the rows tie hands the decision to the rest. */
  lemma TieDefers(terms: seq<SortTerm>, a: Row, b: Row)
    requires terms != [] && ExprValue(a, terms[0].expr) == ExprValue(b, terms[0].expr)
    ensures CompareRows(terms, a, b) == CompareRows(terms[1..], a, b)
  {
    var v := ExprValue(a, terms[0].expr);
    CompareValuesAntisymmetric(v, v);
  }

  /** A single term orders by its value in its direction. */
  lemma SingleTerm(t: SortTerm, a: Row, b: Row)
    ensures var c := CompareValues(ExprValue(a, t.expr), ExprValue(b, t.expr));
      Before([t], a, b) <==> if t.dir == Ascending then c < 0 else c > 0
  {
    assert [t][1..] == [];
    assert CompareRows([], a, b) == 0;
  }

  lemma NewestFirstOrder(a: Row, b: Row)
    ensures Before([NewestFirst], a, b) <==> a.cols.ts > b.cols.ts
  {
    SingleTerm(NewestFirst, a, b);
  }

  /** With no sort key, or one `_order_by_sql` does not know, the newest flow comes first. */
  lemma DefaultNewestFirst(sort: Option<string>, order: Option<Order>, a: Row, b: Row)
    requires sort.None? || (sort.value !in {"num", "url", "method", "size", "status", "time"})
    ensures OrderSpec(sort, order) == [NewestFirst]
    ensures Before(OrderSpec(sort, order), a, b) <==> a.cols.ts > b.cols.ts
  {
    NewestFirstOrder(a, b);
  }

  /** `num` orders by rowid alone, ascending only for `order == "asc"`. */
  lemma NumByRowid(order: Option<Order>, a: Row, b: Row)
    ensures Before(OrderSpec(Some("num"), order), a, b) <==>
      if order == Some(Asc) then a.rowid < b.rowid else a.rowid > b.rowid
  {
    SingleTerm(SortTerm(ColumnOf(Rowid), DirectionOf(order)), a, b);
  }

  /** For the column keys, rows equal in the sort column are listed newest first. */
  lemma ColumnKeyTies(key: string, order: Option<Order>, a: Row, b: Row)
    requires key in {"url", "method", "size"}
    requires ColumnValue(a, SortColumn(key).value) == ColumnValue(b, SortColumn(key).value)
    ensures Before(OrderSpec(Some(key), order), a, b) <==> a.cols.ts > b.cols.ts
  {
    var terms := OrderSpec(Some(key), order);
    assert terms == [SortTerm(ColumnOf(SortColumn(key).value), DirectionOf(order)), NewestFirst];
    TieDefers(terms, a, b);
    assert terms[1..] == [NewestFirst];
    NewestFirstOrder(a, b);
  }

  /** The sort column of `status` and `time`. */
  function NullableSortColumn(key: string): Column {
    if key == "status" then Status else Duration
  }

  /** For `status` and `time`, a row with a value comes before a row without, in either direction. */
  lemma NullsLast(key: string, order: Option<Order>, a: Row, b: Row)
    requires key == "status" || key == "time"
    requires !ColumnValue(a, NullableSortColumn(key)).Null? && ColumnValue(b, NullableSortColumn(key)).Null?
    ensures Before(OrderSpec(Some(key), order), a, b)
  {
  }

  /** For `status` and `time`, rows with the same value (or both NULL) are listed newest first. */
  lemma NullableKeyTies(key: string, order: Option<Order>, a: Row, b: Row)
    requires key == "status" || key == "time"
    requires ColumnValue(a, NullableSortColumn(key)) == ColumnValue(b, NullableSortColumn(key))
    ensures Before(OrderSpec(Some(key), order), a, b) <==> a.cols.ts > b.cols.ts
  {
    var c := NullableSortColumn(key);
    var terms := OrderSpec(Some(key), order);
    assert terms == [SortTerm(IsNull(c), Ascending), SortTerm(ColumnOf(c), DirectionOf(order)), NewestFirst];
    TieDefers(terms, a, b);
    TieDefers(terms[1..], a, b);
    assert terms[1..][1..] == [NewestFirst];
    NewestFirstOrder(a, b);
  }

  /** The rendering gives back the statement text `_order_by_sql` writes, for example with no sort key. */
  lemma DefaultOrderText()
    ensures OrderBySql(None, None) == "ORDER BY ts DESC"
  {
    var t := TermText(NewestFirst);
    assert t == "ts" + " " + "DESC";
    assert TermTexts([NewestFirst]) == [t];
    assert Join(", ", [t]) == t;
  }

  // ----- The statement `list_flows` runs -----

  /** The columns a listing reads, as they are laid out over the two SELECT lines. */
  const FirstSelected := [Rowid, Id, Ts, Method, Url, Host, Path, Status, Duration]
  const SecondSelected := [ReqSize, RespSize]
  const SelectLines := SelectLinesOf(FirstSelected, SecondSelected)

  function SelectLinesOf(first: seq<Column>, second: seq<Column>): seq<string> {
    ["SELECT " + Join(", ", Names(first)) + ",", "       " + Join(", ", Names(second)), "FROM flows"]
  }
  const LimitLine := "LIMIT " + Hole + " OFFSET " + Hole

  /** The WHERE line, present only when some condition is active. */
  function WhereLines(clauses: seq<string>): seq<string> {
    if clauses == [] then [] else ["WHERE " + Join(" AND ", clauses)]
  }

  /** The lines of the statement, joined with newlines. */
  function StatementLines(clauses: seq<string>, q: FlowQuery): seq<string> {
    SelectLines + WhereLines(clauses) + [OrderBySql(q.sort, q.order), LimitLine]
  }

  /** Joining with a separator free of `?` adds no placeholder. */
  lemma {:induction false} JoinPlaceholders(sep: string, parts: seq<string>)
    requires '?' !in sep
    ensures Placeholders(Join(sep, parts)) == TotalPlaceholders(parts)
    decreases |parts|
  {
    if |parts| == 1 {
      assert TotalPlaceholders(parts) == Placeholders(parts[0]) + TotalPlaceholders([]);
    } else if |parts| > 1 {
      JoinPlaceholders(sep, parts[1..]);
      PlaceholdersAround(parts[0], sep, Join(sep, parts[1..]));
    }
  }

  lemma {:induction false} TotalPlaceholdersAppend(a: seq<string>, b: seq<string>)
    ensures TotalPlaceholders(a + b) == TotalPlaceholders(a) + TotalPlaceholders(b)
    decreases |a|
  {
    if a == [] {
      assert a + b == b;
    } else {
      assert (a + b)[1..] == a[1..] + b;
      TotalPlaceholdersAppend(a[1..], b);
    }
  }

  lemma NoPlaceholders(parts: seq<string>)
    requires forall i :: 0 <= i < |parts| ==> '?' !in parts[i]
    ensures TotalPlaceholders(parts) == 0
  {
    if parts != [] {
      NoPlaceholder(parts[0]);
      NoPlaceholders(parts[1..]);
    }
  }

  lemma TermTextPlain(t: SortTerm)
    ensures '?' !in TermText(t)
  {
    assert '?' !in ExprText(t.expr) && '?' !in DirectionText(t.dir);
  }

  lemma TermTextsPlain(terms: seq<SortTerm>)
    ensures TotalPlaceholders(TermTexts(terms)) == 0
  {
    var texts := TermTexts(terms);
    forall i | 0 <= i < |texts| ensures '?' !in texts[i] {
      TermTextPlain(terms[i]);
    }
    NoPlaceholders(texts);
  }

  /** An ORDER BY clause binds no value. */
  lemma OrderByPlain(terms: seq<SortTerm>)
    ensures Placeholders("ORDER BY " + Join(", ", TermTexts(terms))) == 0
  {
    var texts := TermTexts(terms);
    TermTextsPlain(terms);
    JoinPlaceholders(", ", texts);
    PlainPrefix("ORDER BY ", Join(", ", texts));
  }

  lemma PlainPrefix(prefix: string, s: string)
    requires '?' !in prefix
    ensures Placeholders(prefix + s) == Placeholders(s)
  {
    NoPlaceholder(prefix);
    PlaceholdersAppend(prefix, s);
  }

  /** `a ? b ?` with no `?` in `a` or `b`. */
  lemma TwoHoles(a: string, b: string)
    requires '?' !in a && '?' !in b
    ensures Placeholders(a + Hole + b + Hole) == 2
  {
    OneHole(a);
    OneHole(b);
    PlaceholdersAppend(a + Hole, b + Hole);
    assert a + Hole + b + Hole == (a + Hole) + (b + Hole);
  }

  lemma WhereBalanced(clauses: seq<string>)
    ensures TotalPlaceholders(WhereLines(clauses)) == TotalPlaceholders(clauses)
  {
    if clauses != [] {
      var line := "WHERE " + Join(" AND ", clauses);
      JoinPlaceholders(" AND ", clauses);
      PlainPrefix("WHERE ", Join(" AND ", clauses));
      assert TotalPlaceholders([line]) == Placeholders(line) + TotalPlaceholders([]);
    }
  }

  lemma TailBalanced(orderBy: string)
    requires Placeholders(orderBy) == 0
    ensures TotalPlaceholders([orderBy, LimitLine]) == 2
  {
    TwoHoles("LIMIT ", " OFFSET ");
    var tail := [orderBy, LimitLine];
    assert tail[1..] == [LimitLine] && tail[1..][1..] == [];
    assert TotalPlaceholders(tail[1..]) == Placeholders(LimitLine) + TotalPlaceholders([]);
  }

  /** Names joined with a plain separator hold no placeholder. */
  lemma PlainJoin(sep: string, names: seq<string>)
    requires '?' !in sep && forall i :: 0 <= i < |names| ==> '?' !in names[i]
    ensures Placeholders(Join(sep, names)) == 0
  {
    NoPlaceholders(names);
    JoinPlaceholders(sep, names);
  }

  lemma SelectPlain(first: seq<Column>, second: seq<Column>)
    ensures TotalPlaceholders(SelectLinesOf(first, second)) == 0
  {
    var j1, j2 := Join(", ", Names(first)), Join(", ", Names(second));
    PlainJoin(", ", Names(first));
    PlainJoin(", ", Names(second));
    PlainPrefix("SELECT ", j1);
    PlainPrefix("       ", j2);
    NoPlaceholder("FROM flows");
    NoPlaceholder(",");
    PlaceholdersAppend("SELECT " + j1, ",");
    TotalOfThree("SELECT " + j1 + ",", "       " + j2, "FROM flows");
  }

  lemma TotalOfThree(a: string, b: string, c: string)
    ensures TotalPlaceholders([a, b, c]) == Placeholders(a) + Placeholders(b) + Placeholders(c)
  {
    assert [a, b, c][1..] == [b, c];
    assert [b, c][1..] == [c];
    assert TotalPlaceholders([c]) == Placeholders(c) + TotalPlaceholders([]);
  }

  /** The statement binds the filter values and then `limit` and `offset`, one per placeholder. */
  lemma StatementBalanced(clauses: seq<string>, q: FlowQuery)
    ensures Placeholders(Join("\n", StatementLines(clauses, q))) == TotalPlaceholders(clauses) + 2
  {
    var w := WhereLines(clauses);
    var tail := [OrderBySql(q.sort, q.order), LimitLine];
    JoinPlaceholders("\n", StatementLines(clauses, q));
    TotalPlaceholdersAppend(SelectLines + w, tail);
    TotalPlaceholdersAppend(SelectLines, w);
    SelectPlain(FirstSelected, SecondSelected);
    WhereBalanced(clauses);
    OrderByPlain(OrderSpec(q.sort, q.order));
    TailBalanced(OrderBySql(q.sort, q.order));
  }

  /**
   * The statement text of `list_flows` around the given filter clauses: it
   * has two placeholders more than the clauses, for `limit` and `offset`.
   */
  method AssembleStatement(clauses: seq<string>, q: FlowQuery) returns (sql: string)
    ensures sql == Join("\n", StatementLines(clauses, q))
    ensures Placeholders(sql) == TotalPlaceholders(clauses) + 2
  {
    var parts := SelectLines;
    if clauses != [] {
      parts := parts + ["WHERE " + Join(" AND ", clauses)];
    }
    assert parts == SelectLines + WhereLines(clauses);
    parts := parts + [OrderBySql(q.sort, q.order), LimitLine];
    sql := Join("\n", parts);
    StatementBalanced(clauses, q);
  }

  /**
   * `list_flows` up to the call into SQLite: the statement text and its
   * parameters, the filter values first and `limit` and `offset` last, with
   * one parameter per placeholder.
   */
  method ListFlowsStatement(q: FlowQuery) returns (sql: string, params: seq<Param>)
    ensures params == AllParams(ActiveFilters(q)) + [PInt(q.limit), PInt(q.offset)]
    ensures sql == Join("\n", StatementLines(Clauses(ActiveFilters(q)), q))
    ensures Placeholders(sql) == |params|
  {
    var clauses, filterParams := BuildFlowFilters(q);
    sql := AssembleStatement(clauses, q);
    params := filterParams + [PInt(q.limit), PInt(q.offset)];
  }
}
