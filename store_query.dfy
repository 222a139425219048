/**
 * The WHERE part of the listing query: the clauses and bound values built
 * from a `FlowQuery`, grown in place the way `_build_flow_filters` and its
 * `_add_*` helpers grow them.
 */
module FlowQueries {
  import opened Base
  import opened Text
  import opened Models

  /** A bound parameter of the statement. */
  datatype Param = PText(s: string) | PInt(i: int) | PReal(r: real)

  /** The number of `?` placeholders in SQL text. */
  function Placeholders(sql: string): nat {
    CountChar(sql, '?')
  }

  /** A `str | None` filter is active when it is truthy: present and non-empty. */
  predicate Active(s: Option<string>) {
    s.Some? && s.value != ""
  }

  /** `f"%{needle}%"`. */
  function LikePattern(needle: string): string {
    "%" + needle + "%"
  }

  /** The columns of the `flows` table the listing filters and sorts on. */
  datatype Column =
    | Rowid | Id | Ts | Method | Url | Host | Path | Status | Duration | ReqSize | RespSize
    | ReqPreview | RespPreview | RespBodyText

  function ColumnName(c: Column): (r: string)
    ensures '?' !in r
  {
    match c
    case Url => "url"
    case ReqPreview => "req_preview"
    case RespPreview => "resp_preview"
    case RespBodyText => "resp_body_text"
    case Host => "host"
    case Method => "method"
    case Status => "status"
    case Duration => "duration"
    case RespSize => "resp_size"
    case Ts => "ts"
    case Rowid => "rowid"
    case Id => "id"
    case Path => "path"
    case ReqSize => "req_size"
  }

  datatype Comparison = AtLeast | AtMost

  function OpText(c: Comparison): (r: string)
    ensures '?' !in r
  {
    match c
    case AtLeast => ">="
    case AtMost => "<="
  }

  /** One condition of the listing, with the values it binds. */
  datatype Filter =
    | TextSearch(pattern: string)
    | Equals(col: Column, value: Param)
    | Like(col: Column, pattern: string)
    | BodySearch(pattern: string)
    | NullableBound(col: Column, cmp: Comparison, value: Param)
    | Bound(col: Column, cmp: Comparison, value: Param)

  const Hole := "?"

  /** The columns the free-text search looks in, and those the body search looks in. */
  const TextSearchColumns := [Url, ReqPreview, RespPreview]
  const BodySearchColumns := [ReqPreview, RespBodyText]

  function LikeText(name: string): string {
    name + " LIKE " + Hole
  }

  function LikeClause(col: Column): string {
    LikeText(ColumnName(col))
  }

  function Names(cols: seq<Column>): (r: seq<string>)
    ensures |r| == |cols|
  {
    seq(|cols|, i requires 0 <= i < |cols| => ColumnName(cols[i]))
  }

  /** `a LIKE ? OR b LIKE ? OR ...`. */
  function OrOfLikes(names: seq<string>): string
    requires names != []
  {
    if |names| == 1 then LikeText(names[0]) else LikeText(names[0]) + " OR " + OrOfLikes(names[1..])
  }

  /** A parenthesised OR of LIKE clauses, one per column. */
  function SearchClause(cols: seq<Column>): string
    requires cols != []
  {
    "(" + OrOfLikes(Names(cols)) + ")"
  }

  function EqualsClause(col: Column): string {
    ColumnName(col) + " = " + Hole
  }

  /** A bound of `_add_nullable_range`: the column must be non-NULL as well. */
  function NullableBoundClause(col: Column, c: Comparison): string {
    ColumnName(col) + " IS NOT NULL AND " + ColumnName(col) + " " + OpText(c) + " " + Hole
  }

  /** A bound of `_add_range`: a bare comparison. */
  function BoundClause(col: Column, c: Comparison): string {
    ColumnName(col) + " " + OpText(c) + " " + Hole
  }

  function ClauseOf(f: Filter): string {
    match f
    case TextSearch(_) => SearchClause(TextSearchColumns)
    case Equals(col, _) => EqualsClause(col)
    case Like(col, _) => LikeClause(col)
    case BodySearch(_) => SearchClause(BodySearchColumns)
    case NullableBound(col, c, _) => NullableBoundClause(col, c)
    case Bound(col, c, _) => BoundClause(col, c)
  }

  function ParamsOf(f: Filter): seq<Param> {
    match f
    case TextSearch(p) => [PText(p), PText(p), PText(p)]
    case Equals(_, v) => [v]
    case Like(_, p) => [PText(p)]
    case BodySearch(p) => [PText(p), PText(p)]
    case NullableBound(_, _, v) => [v]
    case Bound(_, _, v) => [v]
  }

  // ----- The conditions a query imposes, group by group -----

  function TextFilter(q: FlowQuery): seq<Filter> {
    if Active(q.q) then [TextSearch(LikePattern(q.q.value))] else []
  }

  function HostFilter(q: FlowQuery): seq<Filter> {
    if Active(q.host) then [Equals(Host, PText(q.host.value))] else []
  }

  /** The method is compared upper-cased. */
  function MethodFilter(q: FlowQuery): seq<Filter> {
    if Active(q.httpMethod) then [Equals(Method, PText(Upper(q.httpMethod.value)))] else []
  }

  /** Any status given filters, 0 included. */
  function StatusFilter(q: FlowQuery): seq<Filter> {
    if q.status.Some? then [Equals(Status, PInt(q.status.value))] else []
  }

  function UrlFilter(q: FlowQuery): seq<Filter> {
    if Active(q.urlContains) then [Like(Url, LikePattern(q.urlContains.value))] else []
  }

  /** The body search only counts beside a URL search. */
  function BodyFilter(q: FlowQuery): seq<Filter> {
    if Active(q.urlContains) && Active(q.bodyContains) then [BodySearch(LikePattern(q.bodyContains.value))] else []
  }

  /** The two bounds on a column; nullable bounds also exclude NULL. */
  function RangeFilters(col: Column, nullable: bool, min: Option<Param>, max: Option<Param>): seq<Filter> {
    BoundFilter(col, nullable, AtLeast, min) + BoundFilter(col, nullable, AtMost, max)
  }

  /** One bound, when it is given. */
  function BoundFilter(col: Column, nullable: bool, c: Comparison, v: Option<Param>): seq<Filter> {
    if v.None? then []
    else if nullable then [NullableBound(col, c, v.value)]
    else [Bound(col, c, v.value)]
  }

  function RealParam(r: Option<real>): Option<Param> {
    if r.Some? then Some(PReal(r.value)) else None
  }

  function IntParam(i: Option<int>): Option<Param> {
    if i.Some? then Some(PInt(i.value)) else None
  }

  function DurationFilters(q: FlowQuery): seq<Filter> {
    RangeFilters(Duration, true, RealParam(q.durationMin), RealParam(q.durationMax))
  }

  function SizeFilters(q: FlowQuery): seq<Filter> {
    RangeFilters(RespSize, false, IntParam(q.respSizeMin), IntParam(q.respSizeMax))
  }

  /** The conditions a query imposes, in the order the clauses are emitted. */
  function ActiveFilters(q: FlowQuery): seq<Filter> {
    TextFilter(q) + HostFilter(q) + MethodFilter(q) + StatusFilter(q)
    + UrlFilter(q) + BodyFilter(q) + DurationFilters(q) + SizeFilters(q)
  }

  /** The query filters nothing when every filter is left at its default. */
  lemma DefaultQueryFiltersNothing()
    ensures ActiveFilters(DefaultFlowQuery()) == []
  {
  }

  /** Which group a condition of the query comes from. */
  lemma InActiveFilters(q: FlowQuery, f: Filter)
    ensures f in ActiveFilters(q) <==>
      f in TextFilter(q) || f in HostFilter(q) || f in MethodFilter(q) || f in StatusFilter(q)
      || f in UrlFilter(q) || f in BodyFilter(q) || f in DurationFilters(q) || f in SizeFilters(q)
  {
  }

  /**
   * Free text, host and method filter only when non-empty; the method is
   * compared upper-cased; any status given filters, 0 included.
   */
  lemma EqualityFilters(q: FlowQuery)
    ensures (exists p :: TextSearch(p) in ActiveFilters(q)) <==> Active(q.q)
    ensures Active(q.q) ==> TextSearch("%" + q.q.value + "%") in ActiveFilters(q)
    ensures (exists v :: Equals(Host, v) in ActiveFilters(q)) <==> Active(q.host)
    ensures Active(q.host) ==> Equals(Host, PText(q.host.value)) in ActiveFilters(q)
    ensures (exists v :: Equals(Method, v) in ActiveFilters(q)) <==> Active(q.httpMethod)
    ensures Active(q.httpMethod) ==> Equals(Method, PText(Upper(q.httpMethod.value))) in ActiveFilters(q)
    ensures (exists v :: Equals(Status, v) in ActiveFilters(q)) <==> q.status.Some?
    ensures q.status.Some? ==> Equals(Status, PInt(q.status.value)) in ActiveFilters(q)
  {
    var fs := ActiveFilters(q);
    forall p | TextSearch(p) in fs ensures Active(q.q) {
      InActiveFilters(q, TextSearch(p));
    }
    forall v | Equals(Host, v) in fs ensures Active(q.host) {
      InActiveFilters(q, Equals(Host, v));
    }
    forall v | Equals(Method, v) in fs ensures Active(q.httpMethod) {
      InActiveFilters(q, Equals(Method, v));
    }
    forall v | Equals(Status, v) in fs ensures q.status.Some? {
      InActiveFilters(q, Equals(Status, v));
    }
    if Active(q.q) {
      InActiveFilters(q, TextSearch(LikePattern(q.q.value)));
    }
    if Active(q.host) {
      InActiveFilters(q, Equals(Host, PText(q.host.value)));
    }
    if Active(q.httpMethod) {
      InActiveFilters(q, Equals(Method, PText(Upper(q.httpMethod.value))));
    }
    if q.status.Some? {
      InActiveFilters(q, Equals(Status, PInt(q.status.value)));
    }
  }

  /** The URL is searched when its needle is non-empty; the body only when both needles are. */
  lemma SearchFilterCases(q: FlowQuery)
    ensures (exists p :: Like(Url, p) in ActiveFilters(q)) <==> Active(q.urlContains)
    ensures Active(q.urlContains) ==> Like(Url, "%" + q.urlContains.value + "%") in ActiveFilters(q)
    ensures (exists p :: BodySearch(p) in ActiveFilters(q)) <==> Active(q.urlContains) && Active(q.bodyContains)
    ensures Active(q.urlContains) && Active(q.bodyContains) ==>
              BodySearch("%" + q.bodyContains.value + "%") in ActiveFilters(q)
  {
    var fs := ActiveFilters(q);
    forall p | Like(Url, p) in fs ensures Active(q.urlContains) {
      InActiveFilters(q, Like(Url, p));
    }
    forall p | BodySearch(p) in fs ensures Active(q.urlContains) && Active(q.bodyContains) {
      InActiveFilters(q, BodySearch(p));
    }
    if Active(q.urlContains) {
      InActiveFilters(q, Like(Url, LikePattern(q.urlContains.value)));
      if Active(q.bodyContains) {
        InActiveFilters(q, BodySearch(LikePattern(q.bodyContains.value)));
      }
    }
  }

  /**
   * A bound is imposed exactly when it is given: duration bounds also
   * exclude NULL durations, response-size bounds are bare comparisons.
   */
  lemma RangeFilterCases(q: FlowQuery, v: Param)
    ensures NullableBound(Duration, AtLeast, v) in ActiveFilters(q) <==> RealParam(q.durationMin) == Some(v)
    ensures NullableBound(Duration, AtMost, v) in ActiveFilters(q) <==> RealParam(q.durationMax) == Some(v)
    ensures Bound(RespSize, AtLeast, v) in ActiveFilters(q) <==> IntParam(q.respSizeMin) == Some(v)
    ensures Bound(RespSize, AtMost, v) in ActiveFilters(q) <==> IntParam(q.respSizeMax) == Some(v)
  {
    InActiveFilters(q, NullableBound(Duration, AtLeast, v));
    InActiveFilters(q, NullableBound(Duration, AtMost, v));
    InActiveFilters(q, Bound(RespSize, AtLeast, v));
    InActiveFilters(q, Bound(RespSize, AtMost, v));
  }

  // ----- One value per placeholder -----

  lemma {:induction false} NoPlaceholder(s: string)
    requires '?' !in s
    ensures Placeholders(s) == 0
    decreases |s|
  {
    if s != [] {
      assert s[0] in s;
      assert forall c :: c in s[1..] ==> c in s;
      NoPlaceholder(s[1..]);
    }
  }

  lemma PlaceholdersAppend(a: string, b: string)
    ensures Placeholders(a + b) == Placeholders(a) + Placeholders(b)
  {
    CountCharAppend(a, b, '?');
  }

  /** `a + sep + b` with no `?` in `sep` holds the placeholders of `a` and of `b`. */
  lemma PlaceholdersAround(a: string, sep: string, b: string)
    requires '?' !in sep
    ensures Placeholders(a + sep + b) == Placeholders(a) + Placeholders(b)
  {
    NoPlaceholder(sep);
    PlaceholdersAppend(a, sep);
    PlaceholdersAppend(a + sep, b);
  }

  /** `text ?` with no `?` in `text`. */
  lemma OneHole(text: string)
    requires '?' !in text
    ensures Placeholders(text + Hole) == 1
  {
    NoPlaceholder(text);
    PlaceholdersAppend(text, Hole);
  }

  lemma LikeBalanced(name: string)
    requires '?' !in name
    ensures Placeholders(LikeText(name)) == 1
  {
    OneHole(name + " LIKE ");
  }

  lemma {:induction false} OrOfLikesBalanced(names: seq<string>)
    requires names != [] && forall i :: 0 <= i < |names| ==> '?' !in names[i]
    ensures Placeholders(OrOfLikes(names)) == |names|
    decreases |names|
  {
    var head := LikeText(names[0]);
    LikeBalanced(names[0]);
    if |names| == 1 {
      assert OrOfLikes(names) == head;
    } else {
      var tail := OrOfLikes(names[1..]);
      OrOfLikesBalanced(names[1..]);
      PlaceholdersAround(head, " OR ", tail);
      assert OrOfLikes(names) == head + " OR " + tail;
    }
  }

  lemma SearchClauseBalanced(cols: seq<Column>)
    requires cols != []
    ensures Placeholders(SearchClause(cols)) == |cols|
  {
    var inner := OrOfLikes(Names(cols));
    OrOfLikesBalanced(Names(cols));
    NoPlaceholder("(");
    NoPlaceholder(")");
    PlaceholdersAppend("(", inner);
    PlaceholdersAppend("(" + inner, ")");
  }

  lemma NullableBoundBalanced(col: Column, c: Comparison)
    ensures Placeholders(NullableBoundClause(col, c)) == 1
  {
    var name, op := ColumnName(col), OpText(c);
    var text := name + " IS NOT NULL AND " + name + " " + op + " ";
    assert '?' !in name + " IS NOT NULL AND ";
    assert '?' !in text;
    OneHole(text);
  }

  /** Each clause has exactly as many placeholders as the values it binds. */
  lemma ClauseBalanced(f: Filter)
    ensures Placeholders(ClauseOf(f)) == |ParamsOf(f)|
  {
    match f
    case TextSearch(_) => SearchClauseBalanced(TextSearchColumns);
    case BodySearch(_) => SearchClauseBalanced(BodySearchColumns);
    case Equals(col, _) => OneHole(ColumnName(col) + " = ");
    case Like(col, _) => LikeBalanced(ColumnName(col));
    case NullableBound(col, c, _) => NullableBoundBalanced(col, c);
    case Bound(col, c, _) =>
      assert '?' !in ColumnName(col) + " " + OpText(c) + " ";
      OneHole(ColumnName(col) + " " + OpText(c) + " ");
  }

  function Clauses(fs: seq<Filter>): (r: seq<string>)
    ensures |r| == |fs|
  {
    seq(|fs|, i requires 0 <= i < |fs| => ClauseOf(fs[i]))
  }

  function AllParams(fs: seq<Filter>): seq<Param>
    decreases |fs|
  {
    if fs == [] then [] else ParamsOf(fs[0]) + AllParams(fs[1..])
  }

  function TotalPlaceholders(clauses: seq<string>): nat
    decreases |clauses|
  {
    if clauses == [] then 0 else Placeholders(clauses[0]) + TotalPlaceholders(clauses[1..])
  }

  /** Emitting the clauses of any filter list binds exactly one value per placeholder. */
  lemma {:induction false} FiltersBalanced(fs: seq<Filter>)
    ensures TotalPlaceholders(Clauses(fs)) == |AllParams(fs)|
    decreases |fs|
  {
    if fs != [] {
      FiltersBalanced(fs[1..]);
      ClauseBalanced(fs[0]);
      assert Clauses(fs)[1..] == Clauses(fs[1..]);
    }
  }

  lemma ClausesAppend(fs: seq<Filter>, f: Filter)
    ensures Clauses(fs + [f]) == Clauses(fs) + [ClauseOf(f)]
  {
    assert Clauses(fs + [f])[..|fs|] == Clauses(fs);
  }

  lemma {:induction false} ParamsAppend(fs: seq<Filter>, f: Filter)
    ensures AllParams(fs + [f]) == AllParams(fs) + ParamsOf(f)
    decreases |fs|
  {
    if fs == [] {
      assert AllParams([f]) == ParamsOf(f) + AllParams([]);
    } else {
      assert (fs + [f])[1..] == fs[1..] + [f];
      ParamsAppend(fs[1..], f);
    }
  }

  /**
   * The `where` and `params` lists that `_build_flow_filters` grows in place,
   * with the conditions they express so far.
   */
  class FilterBuilder {
    var clauses: seq<string>
    var params: seq<Param>
    ghost var filters: seq<Filter>

    ghost predicate Valid()
      reads this
    {
      clauses == Clauses(filters) && params == AllParams(filters)
    }

    constructor ()
      ensures Valid() && filters == []
    {
      clauses := [];
      params := [];
      filters := [];
    }

    /** Append one condition's clause and values. */
    method Emit(f: Filter)
      requires Valid()
      modifies this
      ensures Valid() && filters == old(filters) + [f]
    {
      ClausesAppend(filters, f);
      ParamsAppend(filters, f);
      clauses := clauses + [ClauseOf(f)];
      params := params + ParamsOf(f);
      filters := filters + [f];
    }

    /** `_add_like` with the `col LIKE ?` clause. */
    method AddLike(col: Column, needle: string)
      requires Valid()
      modifies this
      ensures Valid() && filters == old(filters) + [Like(col, LikePattern(needle))]
    {
      Emit(Like(col, LikePattern(needle)));
    }

    /** `_add_nullable_range`. */
    method AddNullableRange(col: Column, min: Option<real>, max: Option<real>)
      requires Valid()
      modifies this
      ensures Valid() && filters == old(filters) + RangeFilters(col, true, RealParam(min), RealParam(max))
    {
      ghost var start := filters;
      if min.Some? {
        Emit(NullableBound(col, AtLeast, PReal(min.value)));
      }
      assert filters == start + BoundFilter(col, true, AtLeast, RealParam(min));
      ghost var mid := filters;
      if max.Some? {
        Emit(NullableBound(col, AtMost, PReal(max.value)));
      }
      assert filters == mid + BoundFilter(col, true, AtMost, RealParam(max));
    }

    /** `_add_range`. */
    method AddRange(col: Column, min: Option<int>, max: Option<int>)
      requires Valid()
      modifies this
      ensures Valid() && filters == old(filters) + RangeFilters(col, false, IntParam(min), IntParam(max))
    {
      ghost var start := filters;
      if min.Some? {
        Emit(Bound(col, AtLeast, PInt(min.value)));
      }
      assert filters == start + BoundFilter(col, false, AtLeast, IntParam(min));
      ghost var mid := filters;
      if max.Some? {
        Emit(Bound(col, AtMost, PInt(max.value)));
      }
      assert filters == mid + BoundFilter(col, false, AtMost, IntParam(max));
    }
  }

  /**
   * `_build_flow_filters`: the clauses and values of the query's conditions,
   * in order, with one value per placeholder.
   */
  method BuildFlowFilters(q: FlowQuery) returns (clauses: seq<string>, params: seq<Param>)
    ensures clauses == Clauses(ActiveFilters(q)) && params == AllParams(ActiveFilters(q))
    ensures TotalPlaceholders(clauses) == |params|
  {
    var b := new FilterBuilder();
    if Active(q.q) {
      b.Emit(TextSearch(LikePattern(q.q.value)));
    }
    ghost var f1 := b.filters;
    assert f1 == TextFilter(q);
    if Active(q.host) {
      b.Emit(Equals(Host, PText(q.host.value)));
    }
    ghost var f2 := b.filters;
    assert f2 == f1 + HostFilter(q);
    if Active(q.httpMethod) {
      b.Emit(Equals(Method, PText(Upper(q.httpMethod.value))));
    }
    ghost var f3 := b.filters;
    assert f3 == f2 + MethodFilter(q);
    if q.status.Some? {
      b.Emit(Equals(Status, PInt(q.status.value)));
    }
    ghost var f4 := b.filters;
    assert f4 == f3 + StatusFilter(q);
    if Active(q.urlContains) {
      b.AddLike(Url, q.urlContains.value);
      if Active(q.bodyContains) {
        b.Emit(BodySearch(LikePattern(q.bodyContains.value)));
      }
    }
    ghost var f5 := b.filters;
    assert f5 == f4 + UrlFilter(q) + BodyFilter(q);
    b.AddNullableRange(Duration, q.durationMin, q.durationMax);
    b.AddRange(RespSize, q.respSizeMin, q.respSizeMax);
    assert b.filters == f5 + DurationFilters(q) + SizeFilters(q);
    assert b.filters == ActiveFilters(q);
    clauses, params := b.clauses, b.params;
    FiltersBalanced(b.filters);
  }
}
