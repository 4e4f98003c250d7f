/**
 A comparator sort over entries that may or may not carry a numeric sort key,
 with the comparator `(a, b) => key(a) - key(b)`: a missing key makes the
 difference NaN, so the comparator never reports such an entry as smaller or
 larger than another.

 The sort is an insertion sort. Whatever the keys, its result is a permutation
 of its input; when every entry has a key, the result is ascending by key.
 */
module KeySort {
  import opened Options

  /** The comparator reports `a` before `b`: `key(a) - key(b) < 0`. */
  predicate Precedes<T>(key: T -> Option<int>, a: T, b: T) {
    key(a).Some? && key(b).Some? && key(a).value < key(b).value
  }

  predicate AllKeyed<T>(key: T -> Option<int>, s: seq<T>) {
    forall i :: 0 <= i < |s| ==> key(s[i]).Some?
  }

  /** Every two keyed entries are in ascending key order. */
  predicate Ascending<T>(key: T -> Option<int>, s: seq<T>) {
    forall i, j :: 0 <= i < j < |s| && key(s[i]).Some? && key(s[j]).Some? ==>
      key(s[i]).value <= key(s[j]).value
  }

  /** Where `x` goes in `s`: before the first entry it precedes, or at the end. */
  function InsertPos<T>(key: T -> Option<int>, x: T, s: seq<T>): (i: nat)
    ensures i <= |s|
    ensures forall j :: 0 <= j < i ==> !Precedes(key, x, s[j])
    ensures i < |s| ==> Precedes(key, x, s[i])
  {
    if s == [] || Precedes(key, x, s[0]) then 0
    else 1 + InsertPos(key, x, s[1..])
  }

  function Insert<T>(key: T -> Option<int>, x: T, s: seq<T>): (r: seq<T>)
    ensures multiset(r) == multiset(s) + multiset{x}
  {
    var i := InsertPos(key, x, s);
    assert s == s[..i] + s[i..];
    s[..i] + ([x] + s[i..])
  }

  /** Inserts each entry, last first, into the sorted prefix before it. */
  function InsertionSort<T>(key: T -> Option<int>, s: seq<T>): (r: seq<T>)
    ensures multiset(r) == multiset(s)
  {
    if s == [] then []
    else
      assert s == s[..|s| - 1] + [s[|s| - 1]];
      Insert(key, s[|s| - 1], InsertionSort(key, s[..|s| - 1]))
  }

  lemma InsertAt<T>(key: T -> Option<int>, x: T, s: seq<T>, k: nat)
    requires k <= |s|
    ensures Insert(key, x, s)[k] ==
      var p := InsertPos(key, x, s);
      if k < p then s[k] else if k == p then x else s[k - 1]
  {
  }

  lemma InsertAscending<T>(key: T -> Option<int>, x: T, s: seq<T>)
    requires key(x).Some? && AllKeyed(key, s) && Ascending(key, s)
    ensures Ascending(key, Insert(key, x, s))
  {
    var p := InsertPos(key, x, s);
    var r := Insert(key, x, s);
    forall i, j | 0 <= i < j < |r| && key(r[i]).Some? && key(r[j]).Some?
      ensures key(r[i]).value <= key(r[j]).value
    {
      InsertAt(key, x, s, i);
      InsertAt(key, x, s, j);
      if j == p {
        assert !Precedes(key, x, s[i]);
      } else if i == p {
        assert Precedes(key, x, s[p]);
      }
    }
  }

  /** When every entry has a key, the sort puts them in ascending key order. */
  lemma {:induction false} InsertionSortAscending<T>(key: T -> Option<int>, s: seq<T>)
    requires AllKeyed(key, s)
    ensures Ascending(key, InsertionSort(key, s))
  {
    if s != [] {
      var init := s[..|s| - 1];
      assert AllKeyed(key, init) by {
        forall i | 0 <= i < |init| ensures key(init[i]).Some? {
          assert init[i] == s[i];
        }
      }
      InsertionSortAscending(key, init);
      var t := InsertionSort(key, init);
      forall i | 0 <= i < |t| ensures key(t[i]).Some? {
        assert t[i] in multiset(init);
      }
      InsertAscending(key, s[|s| - 1], t);
    }
  }

  /** `s.map(f)`. */
  function Map<T, U>(f: T -> U, s: seq<T>): (r: seq<U>)
    ensures |r| == |s|
    ensures forall i :: 0 <= i < |s| ==> r[i] == f(s[i])
  {
    if s == [] then [] else [f(s[0])] + Map(f, s[1..])
  }

  lemma MapCons<T, U>(f: T -> U, x: T, s: seq<T>)
    ensures Map(f, [x] + s) == [f(x)] + Map(f, s)
  {
    assert ([x] + s)[1..] == s;
  }

  lemma {:induction false} MapAppend<T, U>(f: T -> U, a: seq<T>, b: seq<T>)
    ensures Map(f, a + b) == Map(f, a) + Map(f, b)
  {
    if a == [] {
      assert a + b == b;
    } else {
      assert (a + b)[1..] == a[1..] + b;
      MapAppend(f, a[1..], b);
    }
  }

  lemma InsertMap<T, U>(key: T -> Option<int>, f: T -> U, x: T, s: seq<T>)
    ensures multiset(Map(f, Insert(key, x, s))) == multiset(Map(f, s)) + multiset{f(x)}
  {
    var p := InsertPos(key, x, s);
    MapAppend(f, s[..p], [x] + s[p..]);
    MapCons(f, x, s[p..]);
    assert s == s[..p] + s[p..];
    MapAppend(f, s[..p], s[p..]);
  }

  lemma InsertLastMap<T, U>(key: T -> Option<int>, f: T -> U, init: seq<T>, last: T, sorted: seq<T>)
    requires multiset(Map(f, sorted)) == multiset(Map(f, init))
    ensures multiset(Map(f, Insert(key, last, sorted))) == multiset(Map(f, init + [last]))
  {
    InsertMap(key, f, last, sorted);
    MapAppend(f, init, [last]);
    assert Map(f, [last]) == [f(last)];
  }

  /** The sort permutes the entries, so it permutes any one property of them too. */
  lemma {:induction false} InsertionSortMap<T, U>(key: T -> Option<int>, f: T -> U, s: seq<T>)
    ensures multiset(Map(f, InsertionSort(key, s))) == multiset(Map(f, s))
  {
    if s != [] {
      var init, last := s[..|s| - 1], s[|s| - 1];
      assert s == init + [last];
      InsertionSortMap(key, f, init);
      InsertLastMap(key, f, init, last, InsertionSort(key, init));
    }
  }

  /** An element of any permutation of a mapped sequence is the image of an
      element: the index of one such element. */
  lemma ImageOf<T, U>(f: T -> U, s: seq<T>, r: seq<U>, x: U) returns (i: nat)
    requires multiset(r) == multiset(Map(f, s))
    requires x in r
    ensures i < |s| && x == f(s[i])
  {
    assert x in multiset(Map(f, s));
    var m := Map(f, s);
    assert x in m;
    i :| 0 <= i < |m| && m[i] == x;
  }
}
