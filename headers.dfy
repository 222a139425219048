/** Header lists: name tests and the name-based filter the program applies in several places. */
module Headers {
  import opened Base
  import opened Text

  /** `key.lower() == name` for a lower-case ASCII `name`. */
  predicate NameIs(h: Header, name: string) {
    Lower(h.0) == name
  }

  /** The pairs of `hs` whose lower-cased name is not in `names`, in their original order. */
  function RemoveNamed(hs: seq<Header>, names: set<string>): (r: seq<Header>)
    ensures |r| <= |hs|
    ensures forall i :: 0 <= i < |r| ==> Lower(r[i].0) !in names
  {
    if hs == [] then []
    else
      var init := hs[..|hs| - 1];
      var last := hs[|hs| - 1];
      RemoveNamed(init, names) + (if Lower(last.0) in names then [] else [last])
  }

  /** The filter keeps exactly the pairs whose name is not listed. */
  lemma {:induction false} RemoveNamedMembers(hs: seq<Header>, names: set<string>)
    ensures forall h :: h in RemoveNamed(hs, names) <==> h in hs && Lower(h.0) !in names
    decreases |hs|
  {
    if hs != [] {
      var init := hs[..|hs| - 1];
      var last := hs[|hs| - 1];
      RemoveNamedMembers(init, names);
      assert forall h :: h in hs <==> h in init || h == last;
    }
  }

  /** Filtering distributes over concatenation, so relative order is kept. */
  lemma {:induction false} RemoveNamedAppend(a: seq<Header>, b: seq<Header>, names: set<string>)
    ensures RemoveNamed(a + b, names) == RemoveNamed(a, names) + RemoveNamed(b, names)
    decreases |b|
  {
    if b == [] {
      assert a + b == a;
    } else {
      var b' := b[..|b| - 1];
      assert (a + b)[..|a + b| - 1] == a + b';
      RemoveNamedAppend(a, b', names);
    }
  }

  /** A list none of whose names is filtered comes through unchanged. */
  lemma {:induction false} RemoveNamedNothing(hs: seq<Header>, names: set<string>)
    requires forall i :: 0 <= i < |hs| ==> Lower(hs[i].0) !in names
    ensures RemoveNamed(hs, names) == hs
    decreases |hs|
  {
    if hs != [] {
      RemoveNamedNothing(hs[..|hs| - 1], names);
    }
  }

  /** Filtering twice is filtering once. */
  lemma RemoveNamedIdempotent(hs: seq<Header>, names: set<string>)
    ensures RemoveNamed(RemoveNamed(hs, names), names) == RemoveNamed(hs, names)
  {
    var r := RemoveNamed(hs, names);
    assert forall i :: 0 <= i < |r| ==> r[i] in r;
    RemoveNamedNothing(r, names);
  }
}
