/**
 The sorter's per-level array pipeline: `.sort((a, b) => a['x-row'] - b['x-row'])`
 followed by `_.compact`.

 `Array.prototype.sort` moves `undefined` elements to the end without consulting
 the comparator and sorts the rest with it; `_.compact` then drops every falsy
 element. When the only falsy slots are the `undefined` placeholders, the two
 steps together yield exactly the real entries, sorted by `x-row`.
 */
module XRowOrder {
  import opened Options
  import opened JsonValues
  import opened KeySort

  /** The reserved property carrying an entry's original position in the document. */
  const XRow: string := "x-row"

  /** The entry's `x-row` when it is a number, which is when the comparator's
      subtraction yields a number. */
  function XRowKey(e: Json): Option<int> {
    var x := Get(e, XRow);
    if x.Num? then Some(x.n) else None
  }

  /** The elements that are not `undefined`, in order. */
  function Defined(s: seq<Json>): (r: seq<Json>)
    ensures Undefined !in r
    ensures multiset(r) + multiset(Holes(s)) == multiset(s)
  {
    if s == [] then []
    else
      assert s == [s[0]] + s[1..];
      (if s[0] == Undefined then [] else [s[0]]) + Defined(s[1..])
  }

  /** The `undefined` elements. */
  function Holes(s: seq<Json>): (r: seq<Json>)
    ensures forall i :: 0 <= i < |r| ==> r[i] == Undefined
  {
    if s == [] then []
    else (if s[0] == Undefined then [s[0]] else []) + Holes(s[1..])
  }

  /** `Array.prototype.sort` with the x-row comparator: the elements other than
      `undefined` are sorted with the comparator, and the `undefined` ones follow. */
  function JsSort(s: seq<Json>): (r: seq<Json>)
    ensures multiset(r) == multiset(s)
    ensures forall i, j :: 0 <= i < j < |r| && r[i] == Undefined ==> r[j] == Undefined
  {
    var sorted := InsertionSort(XRowKey, Defined(s));
    assert Undefined !in multiset(sorted);
    sorted + Holes(s)
  }

  /** `_.compact`: the truthy elements, in order. */
  function Compact(s: seq<Json>): (r: seq<Json>)
    ensures forall e :: e in r <==> e in s && Truthy(e)
    ensures |r| <= |s|
  {
    if s == [] then []
    else
      assert s == [s[0]] + s[1..];
      (if Truthy(s[0]) then [s[0]] else []) + Compact(s[1..])
  }

  lemma {:induction false} CompactAppend(a: seq<Json>, b: seq<Json>)
    ensures Compact(a + b) == Compact(a) + Compact(b)
  {
    if a != [] {
      var head := if Truthy(a[0]) then [a[0]] else [];
      assert (a + b)[0] == a[0];
      assert (a + b)[1..] == a[1..] + b;
      CompactAppend(a[1..], b);
      calc {
        Compact(a + b);
        head + Compact(a[1..] + b);
        head + (Compact(a[1..]) + Compact(b));
        (head + Compact(a[1..])) + Compact(b);
        Compact(a) + Compact(b);
      }
    } else {
      assert a + b == b;
    }
  }

  lemma {:induction false} CompactKeepsTruthy(s: seq<Json>)
    requires forall i :: 0 <= i < |s| ==> Truthy(s[i])
    ensures Compact(s) == s
  {
    if s != [] {
      CompactKeepsTruthy(s[1..]);
    }
  }

  /** Sorting the slots of one level and compacting them. When every slot is
      the `undefined` placeholder or an object, compaction removes exactly the
      placeholders: the result is the real entries in comparator order, each an
      object, ascending by `x-row` when every entry has a numeric one. */
  function SortAndCompact(slots: seq<Json>): (r: seq<Json>)
    requires forall i :: 0 <= i < |slots| ==> slots[i] == Undefined || slots[i].Obj?
    ensures r == InsertionSort(XRowKey, Defined(slots))
    ensures multiset(r) == multiset(Defined(slots))
    ensures forall i :: 0 <= i < |r| ==> r[i].Obj?
    ensures AllKeyed(XRowKey, Defined(slots)) ==> Ascending(XRowKey, r)
  {
    CompactRemovesHoles(slots);
    SortedWhenKeyed(Defined(slots));
    Compact(JsSort(slots))
  }

  /** The comparator order is ascending whenever every entry has a key. */
  lemma SortedWhenKeyed(s: seq<Json>)
    ensures AllKeyed(XRowKey, s) ==> Ascending(XRowKey, InsertionSort(XRowKey, s))
  {
    if AllKeyed(XRowKey, s) {
      InsertionSortAscending(XRowKey, s);
    }
  }

  lemma CompactRemovesHoles(slots: seq<Json>)
    requires forall i :: 0 <= i < |slots| ==> slots[i] == Undefined || slots[i].Obj?
    ensures Compact(JsSort(slots)) == InsertionSort(XRowKey, Defined(slots))
    ensures forall e :: e in InsertionSort(XRowKey, Defined(slots)) ==> e.Obj?
  {
    var sorted := InsertionSort(XRowKey, Defined(slots));
    SortedSlotsAreObjects(slots);
    assert forall i :: 0 <= i < |sorted| ==> Truthy(sorted[i]) by {
      forall i | 0 <= i < |sorted| ensures Truthy(sorted[i]) {
        assert sorted[i] in sorted;
      }
    }
    CompactKeepsTruthy(sorted);
    CompactHoles(slots);
    CompactAppend(sorted, Holes(slots));
  }

  lemma SortedSlotsAreObjects(slots: seq<Json>)
    requires forall i :: 0 <= i < |slots| ==> slots[i] == Undefined || slots[i].Obj?
    ensures forall e :: e in InsertionSort(XRowKey, Defined(slots)) ==> e.Obj?
  {
    var defined := Defined(slots);
    forall e | e in InsertionSort(XRowKey, defined) ensures e.Obj? {
      assert e in multiset(defined);
      assert e in multiset(slots);
    }
  }

  lemma {:induction false} CompactHoles(s: seq<Json>)
    ensures Compact(Holes(s)) == []
  {
    if s != [] {
      CompactHoles(s[1..]);
      var head := if s[0] == Undefined then [s[0]] else [];
      assert Holes(s) == head + Holes(s[1..]);
      CompactAppend(head, Holes(s[1..]));
      assert Compact(head) == [];
    }
  }
}
