/**
 * JSON values as `json.loads` produces them. Parsing and printing JSON text
 * are library code and are not modelled; the program's own logic starts from
 * an already-parsed value.
 */
module Json {
  import opened Base

  datatype Json =
    | JNull
    | JBool(b: bool)
    | JInt(i: int)
    | JReal(r: real)
    | JStr(s: string)
    | JArr(items: seq<Json>)
    | JObj(fields: map<string, Json>)

  /** A list item that is a `[str, str]` pair (length 2, both strings). */
  predicate IsStringPair(j: Json) {
    j.JArr? && |j.items| == 2 && j.items[0].JStr? && j.items[1].JStr?
  }

  function PairOf(j: Json): Header
    requires IsStringPair(j)
  {
    (j.items[0].s, j.items[1].s)
  }

  /**
   * The `[str, str]` items of a list, as header tuples, in order; every other
   * item is skipped.
   */
  function StringPairs(items: seq<Json>): (r: seq<Header>)
    ensures |r| <= |items|
  {
    if items == [] then []
    else
      var init := items[..|items| - 1];
      var last := items[|items| - 1];
      StringPairs(init) + (if IsStringPair(last) then [PairOf(last)] else [])
  }

  /** Every pair comes from a `[str, str]` item, and every such item gives its pair. */
  lemma {:induction false} StringPairsMembers(items: seq<Json>)
    ensures forall h :: h in StringPairs(items) ==> exists j :: j in items && IsStringPair(j) && PairOf(j) == h
    ensures forall j :: j in items && IsStringPair(j) ==> PairOf(j) in StringPairs(items)
    decreases |items|
  {
    if items != [] {
      var init := items[..|items| - 1];
      var last := items[|items| - 1];
      StringPairsMembers(init);
      assert forall j :: j in items <==> j in init || j == last;
    }
  }

  lemma {:induction false} StringPairsAppend(a: seq<Json>, b: seq<Json>)
    ensures StringPairs(a + b) == StringPairs(a) + StringPairs(b)
    decreases |b|
  {
    if b == [] {
      assert a + b == a;
    } else {
      var b' := b[..|b| - 1];
      assert (a + b)[..|a + b| - 1] == a + b';
      StringPairsAppend(a, b');
    }
  }

  /** `json.dumps` of a header list, as the value `json.loads` gives back. */
  function HeadersToJson(hs: seq<Header>): Json {
    JArr(seq(|hs|, i requires 0 <= i < |hs| => JArr([JStr(hs[i].0), JStr(hs[i].1)])))
  }

  /** Decoding the stored form of a header list gives the list back. */
  lemma {:induction false} StringPairsOfHeaders(hs: seq<Header>)
    ensures StringPairs(HeadersToJson(hs).items) == hs
    decreases |hs|
  {
    if hs != [] {
      var init := hs[..|hs| - 1];
      assert HeadersToJson(hs).items[..|hs| - 1] == HeadersToJson(init).items;
      StringPairsOfHeaders(init);
    }
  }
}
