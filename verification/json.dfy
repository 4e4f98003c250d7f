/**
 JSON-like values as the sorter sees a parsed API description, together with the
 few JavaScript/lodash object operations it relies on: property lookup, property
 assignment, `_.omit` and `_.extend`.

 An object is the sequence of its own properties, a new one going last. A real
 JavaScript object never has the same key twice; the functions below are defined
 for every sequence, and the facts that depend on unique keys say so with
 `DistinctKeys`. `Undefined` stands for JavaScript's `undefined`: what a lookup of
 an absent property yields, and the placeholder a `map` callback leaves when it
 returns nothing.
 */
module JsonValues {

  datatype Json =
    | Undefined
    | Null
    | Bool(b: bool)
    | Num(n: int)
    | Str(s: string)
    | Arr(items: seq<Json>)
    | Obj(fields: seq<Member>)

  datatype Member = Member(name: string, value: Json)

  /** JavaScript truthiness. Numbers are integers here, so NaN does not arise. */
  predicate Truthy(v: Json) {
    match v
    case Undefined => false
    case Null => false
    case Bool(b) => b
    case Num(n) => n != 0
    case Str(s) => s != ""
    case Arr(_) => true
    case Obj(_) => true
  }

  /** The set of own property names. */
  function Keys(ms: seq<Member>): set<string> {
    set i | 0 <= i < |ms| :: ms[i].name
  }

  /** No property name occurs twice, as in every JavaScript object. */
  predicate DistinctKeys(ms: seq<Member>) {
    ms == [] || (ms[0].name !in Keys(ms[1..]) && DistinctKeys(ms[1..]))
  }

  /** `obj[k]` on an object: the value of property `k`, or `undefined` when absent. */
  function Lookup(ms: seq<Member>, k: string): (r: Json)
    ensures k !in Keys(ms) ==> r == Undefined
  {
    if ms == [] then Undefined
    else if ms[0].name == k then ms[0].value
    else Lookup(ms[1..], k)
  }

  /** The own enumerable properties of a value. Only objects have any here:
      a primitive contributes none when used as a source of properties. */
  function Props(v: Json): seq<Member> {
    if v.Obj? then v.fields else []
  }

  /** `v[k]` on any value. */
  function Get(v: Json, k: string): Json {
    Lookup(Props(v), k)
  }

  /** `obj[k] = v`: an existing property keeps its place, a new one is appended. */
  function Put(ms: seq<Member>, k: string, v: Json): (r: seq<Member>)
    ensures Lookup(r, k) == v
    ensures forall k' :: k' != k ==> Lookup(r, k') == Lookup(ms, k')
    ensures Keys(r) == Keys(ms) + {k}
    ensures |r| == if k in Keys(ms) then |ms| else |ms| + 1
    ensures DistinctKeys(ms) ==> DistinctKeys(r)
  {
    if ms == [] then [Member(k, v)]
    else if ms[0].name == k then
      KeysCons(ms[0], ms[1..]);
      KeysCons(Member(k, v), ms[1..]);
      assert ms == [ms[0]] + ms[1..];
      [Member(k, v)] + ms[1..]
    else
      var tail := Put(ms[1..], k, v);
      assert Keys([ms[0]] + tail) == {ms[0].name} + Keys(tail) by {
        KeysCons(ms[0], tail);
      }
      assert Keys(ms) == {ms[0].name} + Keys(ms[1..]) by {
        KeysCons(ms[0], ms[1..]);
        assert ms == [ms[0]] + ms[1..];
      }
      [ms[0]] + tail
  }

  /** The properties of `ms` other than `k`: the object `_.omit(obj, 'k')` builds. */
  function OmitFields(ms: seq<Member>, k: string): (r: seq<Member>)
    ensures forall m :: m in r <==> m in ms && m.name != k
    ensures Lookup(r, k) == Undefined
    ensures forall k' :: k' != k ==> Lookup(r, k') == Lookup(ms, k')
    ensures Keys(r) == Keys(ms) - {k}
    ensures DistinctKeys(ms) ==> DistinctKeys(r)
  {
    if ms == [] then []
    else
      var tail := OmitFields(ms[1..], k);
      KeysCons(ms[0], ms[1..]);
      assert ms == [ms[0]] + ms[1..];
      if ms[0].name == k then tail
      else
        KeysCons(ms[0], tail);
        [ms[0]] + tail
  }

  /** `_.extend(dest, src)`: copy the properties of `src`, in order, onto `dest`.
      A source that is not an object contributes no properties. */
  function Extend(dest: seq<Member>, src: Json): seq<Member> {
    ExtendFields(dest, Props(src))
  }

  function ExtendFields(dest: seq<Member>, ms: seq<Member>): (r: seq<Member>)
    ensures forall k :: k !in Keys(ms) ==> Lookup(r, k) == Lookup(dest, k)
    ensures DistinctKeys(ms) ==> forall k :: k in Keys(ms) ==> Lookup(r, k) == Lookup(ms, k)
    ensures Keys(r) == Keys(dest) + Keys(ms)
    ensures DistinctKeys(dest) ==> DistinctKeys(r)
    decreases ms
  {
    if ms == [] then dest
    else
      KeysCons(ms[0], ms[1..]);
      assert ms == [ms[0]] + ms[1..];
      ExtendFields(Put(dest, ms[0].name, ms[0].value), ms[1..])
  }

  lemma KeysCons(m: Member, ms: seq<Member>)
    ensures Keys([m] + ms) == {m.name} + Keys(ms)
  {
    var s := [m] + ms;
    forall x | x in Keys(s) ensures x in {m.name} + Keys(ms) {
      var i :| 0 <= i < |s| && s[i].name == x;
      if i > 0 { assert ms[i - 1].name == x; }
    }
    forall x | x in Keys(ms) ensures x in Keys(s) {
      var i :| 0 <= i < |ms| && ms[i].name == x;
      assert s[i + 1].name == x;
    }
    assert s[0].name == m.name;
  }

  lemma LookupCons(m: Member, ms: seq<Member>, k: string)
    ensures Lookup([m] + ms, k) == if m.name == k then m.value else Lookup(ms, k)
  {
    assert ([m] + ms)[1..] == ms;
  }

  /** With unique keys, looking a member's name up finds that member's value. */
  lemma {:induction false} LookupMember(ms: seq<Member>, i: nat)
    requires DistinctKeys(ms)
    requires i < |ms|
    ensures Lookup(ms, ms[i].name) == ms[i].value
  {
    if i > 0 {
      assert ms[1..][i - 1] == ms[i];
      assert ms[i].name in Keys(ms[1..]);
      LookupMember(ms[1..], i - 1);
    }
  }

  /** `_.extend(dest, _.omit(src, k))`: the keys of `dest` and of `src` but `k`;
      `k` and the other keys of `dest` read from `dest`, the rest from `src`. */
  lemma ExtendOmitted(dest: seq<Member>, ms: seq<Member>, k: string)
    ensures Keys(ExtendFields(dest, OmitFields(ms, k))) == Keys(dest) + (Keys(ms) - {k})
    ensures Lookup(ExtendFields(dest, OmitFields(ms, k)), k) == Lookup(dest, k)
    ensures forall k' :: k' !in Keys(ms) ==> Lookup(ExtendFields(dest, OmitFields(ms, k)), k') == Lookup(dest, k')
    ensures DistinctKeys(ms) ==> forall k' :: k' != k && k' in Keys(ms) ==>
      Lookup(ExtendFields(dest, OmitFields(ms, k)), k') == Lookup(ms, k')
  {
  }
}
