/**
 The order-restoring `Sorter` service.

 The binding layer enumerates object keys alphabetically, so the sorter turns the
 three keyed levels of an API description into arrays ordered by each entry's
 `x-row` (the line the entry started on): the `paths` map becomes an array of path
 entries, each path's operations become an array of operation entries, and each
 operation's `responses` map becomes an array of response entries.

 At every level the same pipeline runs: map each key to an entry (the `x-row` key
 itself maps to an `undefined` placeholder), sort with the x-row comparator, and
 `_.compact` the placeholders away.

 The source mutates the document in place; here `Sort` returns the new document
 and `OperationsAfterSort` gives the operations map as the source leaves it.
 */
module Sorter {
  import opened Options
  import opened JsonValues
  import opened KeySort
  import opened XRowOrder

  // ---------------------------------------------------------------------------
  // Input shapes on which the source returns instead of throwing

  /** A value whose `Object.keys` the model enumerates: an object has its own
      properties, a number or a boolean has none. (`Object.keys` throws on
      `undefined` and `null`; strings and arrays are not modelled.) */
  predicate Keyed(v: Json) {
    v.Obj? || v.Num? || v.Bool?
  }

  /** An operation whose `responses` can be enumerated; `Object.keys(undefined)`
      throws for an operation without one. Only an object has a `responses`
      property, so a shaped operation is an object. */
  predicate OperationShaped(v: Json) {
    Keyed(Get(v, "responses"))
  }

  /** Every operation of a path (every member but `x-row`) is shaped. */
  predicate OperationsShaped(ms: seq<Member>) {
    forall i :: 0 <= i < |ms| && ms[i].name != XRow ==> OperationShaped(ms[i].value)
  }

  /** A path value whose operations can be enumerated and are shaped. */
  predicate PathShaped(v: Json) {
    Keyed(v) && OperationsShaped(Props(v))
  }

  predicate PathsShaped(ms: seq<Member>) {
    forall i :: 0 <= i < |ms| && ms[i].name != XRow ==> PathShaped(ms[i].value)
  }

  /** A document on which `sort` returns: either it has no truthy `paths`, or
      `paths` can be enumerated and its paths are shaped. */
  predicate SpecsShaped(specs: Json) {
    Truthy(specs) && Truthy(Get(specs, "paths")) ==> Keyed(Get(specs, "paths")) && PathsShaped(Props(Get(specs, "paths")))
  }

  /** Every entry other than `x-row` has a numeric `x-row`: the case in which
      the comparator orders all entries. */
  predicate XRowsNumeric(ms: seq<Member>) {
    forall i :: 0 <= i < |ms| && ms[i].name != XRow ==> XRowKey(ms[i].value).Some?
  }

  /** Every entry other than `x-row` has unique keys, as JavaScript objects do. */
  predicate EntriesDistinct(ms: seq<Member>) {
    forall i :: 0 <= i < |ms| && ms[i].name != XRow ==> DistinctKeys(Props(ms[i].value))
  }

  /** No entry other than `x-row` has an own property named `k`. */
  predicate NoneHasOwn(ms: seq<Member>, k: string) {
    forall i :: 0 <= i < |ms| && ms[i].name != XRow ==> k !in Keys(Props(ms[i].value))
  }

  // ---------------------------------------------------------------------------
  // One level: keys to slots, placeholders for the `x-row` key

  /** The members other than `x-row`, in enumeration order. */
  function RealMembers(ms: seq<Member>): (r: seq<Member>)
    ensures forall m :: m in r <==> m in ms && m.name != XRow
    ensures |r| <= |ms|
  {
    if ms == [] then []
    else
      assert ms == [ms[0]] + ms[1..];
      (if ms[0].name == XRow then [] else [ms[0]]) + RealMembers(ms[1..])
  }

  /** The key of a member, as the string value an entry records it under. */
  function KeyName(m: Member): Json {
    Str(m.name)
  }

  /** What the `map` callback returns for one key: nothing for `x-row`, the entry otherwise. */
  function Slot(entry: Member -> Json, m: Member): Json {
    if m.name == XRow then Undefined else entry(m)
  }

  function Slots(entry: Member -> Json, ms: seq<Member>): (r: seq<Json>)
    ensures |r| == |ms|
    ensures forall i :: 0 <= i < |ms| ==> r[i] == Slot(entry, ms[i])
  {
    if ms == [] then [] else [Slot(entry, ms[0])] + Slots(entry, ms[1..])
  }

  /** When every entry is an object, the placeholders are exactly the slots of the
      `x-row` key, and the other slots are the entries of the real keys, in order. */
  lemma {:induction false} DefinedSlots(entry: Member -> Json, ms: seq<Member>)
    requires forall m :: entry(m).Obj?
    ensures Defined(Slots(entry, ms)) == Map(entry, RealMembers(ms))
    ensures forall i :: 0 <= i < |ms| ==> Slots(entry, ms)[i] == Undefined || Slots(entry, ms)[i].Obj?
  {
    if ms != [] {
      var slots := Slots(entry, ms);
      var head := if ms[0].name == XRow then [] else [ms[0]];
      DefinedSlots(entry, ms[1..]);
      assert slots[0] == Slot(entry, ms[0]);
      assert slots[1..] == Slots(entry, ms[1..]);
      assert RealMembers(ms) == head + RealMembers(ms[1..]);
      MapAppend(entry, head, RealMembers(ms[1..]));
    }
  }

  /** One level of the sorter: every key mapped to its slot, the slots sorted
      with the x-row comparator, the placeholders compacted away. */
  function Restore(entry: Member -> Json, ms: seq<Member>): seq<Json>
    requires forall m :: entry(m).Obj?
  {
    DefinedSlots(entry, ms);
    SortAndCompact(Slots(entry, ms))
  }

  /** A level's result holds exactly the entries of the keys other than `x-row`,
      each once, and nothing else. */
  lemma RestorePermutes(entry: Member -> Json, ms: seq<Member>)
    requires forall m :: entry(m).Obj?
    ensures multiset(Restore(entry, ms)) == multiset(Map(entry, RealMembers(ms)))
    ensures |Restore(entry, ms)| == |RealMembers(ms)|
    ensures forall i :: 0 <= i < |Restore(entry, ms)| ==> Restore(entry, ms)[i].Obj?
  {
    DefinedSlots(entry, ms);
    var r := Restore(entry, ms);
    assert |multiset(r)| == |multiset(Map(entry, RealMembers(ms)))|;
  }

  /** Every element of a level's result is the entry of a key other than `x-row`. */
  lemma RestoreFrom(entry: Member -> Json, ms: seq<Member>)
    requires forall m :: entry(m).Obj?
    ensures forall e :: e in Restore(entry, ms) ==> exists m :: m in ms && m.name != XRow && e == entry(m)
  {
    var members := RealMembers(ms);
    var r := Restore(entry, ms);
    RestorePermutes(entry, ms);
    forall e | e in r ensures exists m :: m in ms && m.name != XRow && e == entry(m) {
      var i := ImageOf(entry, members, r, e);
      assert members[i] in members;
    }
  }

  /** When the entry of every key other than `x-row` has a numeric `x-row`, a
      level's result is ascending by `x-row`. */
  lemma RestoreAscending(entry: Member -> Json, ms: seq<Member>)
    requires forall m :: entry(m).Obj?
    requires forall i :: 0 <= i < |ms| && ms[i].name != XRow ==> XRowKey(entry(ms[i])).Some?
    ensures AllKeyed(XRowKey, Restore(entry, ms))
    ensures Ascending(XRowKey, Restore(entry, ms))
  {
    DefinedSlots(entry, ms);
    var entries := Map(entry, RealMembers(ms));
    forall i | 0 <= i < |entries| ensures XRowKey(entries[i]).Some? {
      assert RealMembers(ms)[i] in ms;
    }
    InsertionSortAscending(XRowKey, entries);
    var r := Restore(entry, ms);
    forall i | 0 <= i < |r| ensures XRowKey(r[i]).Some? {
      assert r[i] in multiset(entries);
    }
  }

  /** When every entry records its key under property `name`, the names in a
      level's result are a permutation of the keys other than `x-row`. */
  lemma RestoreNames(entry: Member -> Json, name: Json -> Json, ms: seq<Member>)
    requires forall m :: entry(m).Obj?
    requires forall i :: 0 <= i < |ms| && ms[i].name != XRow ==> name(entry(ms[i])) == KeyName(ms[i])
    ensures multiset(Map(name, Restore(entry, ms))) == multiset(Map(KeyName, RealMembers(ms)))
  {
    DefinedSlots(entry, ms);
    var members := RealMembers(ms);
    InsertionSortMap(XRowKey, name, Map(entry, members));
    assert Map(name, Map(entry, members)) == Map(KeyName, members);
  }

  // ---------------------------------------------------------------------------
  // Responses

  /** `_.extend({ responseCode: key }, response)`: the key as `responseCode`, then
      the response's own properties, which override it. */
  function ResponseEntry(m: Member): (r: Json)
    ensures r.Obj?
    ensures Keys(r.fields) == {"responseCode"} + Keys(Props(m.value))
    ensures "responseCode" !in Keys(Props(m.value)) ==> Get(r, "responseCode") == Str(m.name)
    ensures DistinctKeys(Props(m.value)) ==>
      forall k :: k in Keys(Props(m.value)) ==> Get(r, k) == Get(m.value, k)
    ensures forall k :: k != "responseCode" && k !in Keys(Props(m.value)) ==> Get(r, k) == Undefined
  {
    KeysCons(Member("responseCode", Str(m.name)), []);
    Obj(Extend([Member("responseCode", Str(m.name))], m.value))
  }

  function ResponseCodeOf(e: Json): Json {
    Get(e, "responseCode")
  }

  /** `sortResponses`: the responses map as an array of response entries, one per
      key other than `x-row`, with no placeholder left, ordered by `x-row`. */
  function SortResponses(responses: Json): (r: Json)
    requires Keyed(responses)
    ensures r.Arr?
    ensures multiset(r.items) == multiset(Map(ResponseEntry, RealMembers(Props(responses))))
    ensures |r.items| == |RealMembers(Props(responses))|
    ensures forall i :: 0 <= i < |r.items| ==> r.items[i].Obj?
    ensures XRowsNumeric(Props(responses)) && EntriesDistinct(Props(responses)) ==>
      AllKeyed(XRowKey, r.items) && Ascending(XRowKey, r.items)
    ensures NoneHasOwn(Props(responses), "responseCode") ==>
      multiset(Map(ResponseCodeOf, r.items)) == multiset(Map(KeyName, RealMembers(Props(responses))))
  {
    SortResponsesFacts(Props(responses));
    Arr(Restore(ResponseEntry, Props(responses)))
  }

  lemma SortResponsesFacts(ms: seq<Member>)
    ensures XRowsNumeric(ms) && EntriesDistinct(ms) ==>
      AllKeyed(XRowKey, Restore(ResponseEntry, ms)) && Ascending(XRowKey, Restore(ResponseEntry, ms))
    ensures NoneHasOwn(ms, "responseCode") ==>
      multiset(Map(ResponseCodeOf, Restore(ResponseEntry, ms))) == multiset(Map(KeyName, RealMembers(ms)))
    ensures multiset(Restore(ResponseEntry, ms)) == multiset(Map(ResponseEntry, RealMembers(ms)))
    ensures |Restore(ResponseEntry, ms)| == |RealMembers(ms)|
    ensures forall i :: 0 <= i < |Restore(ResponseEntry, ms)| ==> Restore(ResponseEntry, ms)[i].Obj?
  {
    RestorePermutes(ResponseEntry, ms);
    if XRowsNumeric(ms) && EntriesDistinct(ms) {
      forall i | 0 <= i < |ms| && ms[i].name != XRow ensures XRowKey(ResponseEntry(ms[i])).Some? {
        ResponseEntryXRow(ms[i]);
      }
      RestoreAscending(ResponseEntry, ms);
    }
    if NoneHasOwn(ms, "responseCode") {
      RestoreNames(ResponseEntry, ResponseCodeOf, ms);
    }
  }

  lemma ResponseEntryXRow(m: Member)
    requires DistinctKeys(Props(m.value))
    ensures XRowKey(ResponseEntry(m)) == XRowKey(m.value)
  {
    if XRow !in Keys(Props(m.value)) {
      assert XRow != "responseCode";
    }
  }

  // ---------------------------------------------------------------------------
  // Operations

  /** The properties an operation entry starts from, before the operation's own
      are copied onto it. */
  function OperationBase(m: Member): (r: seq<Member>)
    ensures Keys(r) == {"operationName", "responses"}
    ensures Lookup(r, "operationName") == Str(m.name)
    ensures Lookup(r, "responses") == Arr(Restore(ResponseEntry, Props(Get(m.value, "responses"))))
    ensures forall k :: k != "operationName" && k != "responses" ==> Lookup(r, k) == Undefined
  {
    var name := Member("operationName", Str(m.name));
    var sorted := Member("responses", Arr(Restore(ResponseEntry, Props(Get(m.value, "responses")))));
    KeysCons(sorted, []);
    KeysCons(name, [sorted]);
    forall k ensures Lookup([name] + [sorted], k) == if k == name.name then name.value else Lookup([sorted], k) {
      LookupCons(name, [sorted], k);
    }
    forall k ensures Lookup([sorted], k) == if k == sorted.name then sorted.value else Undefined {
      LookupCons(sorted, [], k);
    }
    [name] + [sorted]
  }

  /** The operation entry for one key: `operationName` and the sorted `responses`
      array, extended with the operation's own properties other than `responses`.
      An own `operationName` property therefore overrides the key. */
  function OperationEntry(m: Member): (r: Json)
    ensures r.Obj?
  {
    Obj(ExtendFields(OperationBase(m), OmitFields(Props(m.value), "responses")))
  }

  /** What an operation entry holds: every property of the operation except
      `responses`, the sorted responses array, and the key as `operationName`
      unless the operation has its own. */
  lemma OperationEntryFields(m: Member)
    ensures Keys(OperationEntry(m).fields) == {"operationName", "responses"} + Keys(Props(m.value))
    ensures Get(OperationEntry(m), "responses") == Arr(Restore(ResponseEntry, Props(Get(m.value, "responses"))))
    ensures OperationShaped(m.value) ==> Get(OperationEntry(m), "responses") == SortResponses(Get(m.value, "responses"))
    ensures "operationName" !in Keys(Props(m.value)) ==> Get(OperationEntry(m), "operationName") == Str(m.name)
    ensures DistinctKeys(Props(m.value)) ==>
      forall k :: k != "responses" && k in Keys(Props(m.value)) ==> Get(OperationEntry(m), k) == Get(m.value, k)
    ensures forall k :: k != "operationName" && k != "responses" && k !in Keys(Props(m.value)) ==>
      Get(OperationEntry(m), k) == Undefined
  {
    ExtendOmitted(OperationBase(m), Props(m.value), "responses");
  }

  function OperationNameOf(e: Json): Json {
    Get(e, "operationName")
  }

  /** `sortOperations`: the operations of a path as an array of operation
      entries, one per key other than `x-row`, with no placeholder left, ordered
      by `x-row`. */
  function SortOperations(operations: Json): (r: Json)
    requires PathShaped(operations)
    ensures r.Arr?
    ensures multiset(r.items) == multiset(Map(OperationEntry, RealMembers(Props(operations))))
    ensures |r.items| == |RealMembers(Props(operations))|
    ensures forall i :: 0 <= i < |r.items| ==> r.items[i].Obj?
    ensures XRowsNumeric(Props(operations)) && EntriesDistinct(Props(operations)) ==>
      AllKeyed(XRowKey, r.items) && Ascending(XRowKey, r.items)
    ensures NoneHasOwn(Props(operations), "operationName") ==>
      multiset(Map(OperationNameOf, r.items)) == multiset(Map(KeyName, RealMembers(Props(operations))))
  {
    SortOperationsFacts(Props(operations));
    Arr(Restore(OperationEntry, Props(operations)))
  }

  lemma SortOperationsFacts(ms: seq<Member>)
    ensures XRowsNumeric(ms) && EntriesDistinct(ms) ==>
      AllKeyed(XRowKey, Restore(OperationEntry, ms)) && Ascending(XRowKey, Restore(OperationEntry, ms))
    ensures NoneHasOwn(ms, "operationName") ==>
      multiset(Map(OperationNameOf, Restore(OperationEntry, ms))) == multiset(Map(KeyName, RealMembers(ms)))
    ensures multiset(Restore(OperationEntry, ms)) == multiset(Map(OperationEntry, RealMembers(ms)))
    ensures |Restore(OperationEntry, ms)| == |RealMembers(ms)|
    ensures forall i :: 0 <= i < |Restore(OperationEntry, ms)| ==> Restore(OperationEntry, ms)[i].Obj?
  {
    RestorePermutes(OperationEntry, ms);
    if XRowsNumeric(ms) && EntriesDistinct(ms) {
      forall i | 0 <= i < |ms| && ms[i].name != XRow ensures XRowKey(OperationEntry(ms[i])).Some? {
        OperationEntryXRow(ms[i]);
      }
      RestoreAscending(OperationEntry, ms);
    }
    if NoneHasOwn(ms, "operationName") {
      RestoreNames(OperationEntry, OperationNameOf, ms);
    }
  }

  lemma OperationEntryXRow(m: Member)
    requires DistinctKeys(Props(m.value))
    ensures XRowKey(OperationEntry(m)) == XRowKey(m.value)
  {
    assert XRow != "responses" && XRow != "operationName";
  }

  /** One operation as `sortOperations` leaves it in the path object: `_.omit(operation, 'responses')`. */
  function StripResponses(m: Member): Member {
    if m.name == XRow then m else Member(m.name, Obj(OmitFields(Props(m.value), "responses")))
  }

  /** The operations map after `sortOperations` has run over it: the same keys in
      the same order, the `x-row` member untouched, every operation replaced by a
      copy without `responses` that keeps all its other properties. */
  function OperationsAfterSort(operations: Json): (r: Json)
    requires PathShaped(operations)
    ensures !operations.Obj? ==> r == operations
    ensures operations.Obj? ==> r.Obj? && |r.fields| == |operations.fields|
    ensures operations.Obj? ==> forall i :: 0 <= i < |r.fields| ==> r.fields[i].name == operations.fields[i].name
    ensures operations.Obj? ==> forall i :: 0 <= i < |r.fields| && operations.fields[i].name == XRow ==>
      r.fields[i] == operations.fields[i]
    ensures operations.Obj? ==> forall i :: 0 <= i < |r.fields| && operations.fields[i].name != XRow ==>
      && r.fields[i].value.Obj?
      && Get(r.fields[i].value, "responses") == Undefined
      && Keys(r.fields[i].value.fields) == Keys(Props(operations.fields[i].value)) - {"responses"}
      && (forall k :: k != "responses" ==> Get(r.fields[i].value, k) == Get(operations.fields[i].value, k))
  {
    if operations.Obj? then Obj(Map(StripResponses, operations.fields)) else operations
  }

  /** The operation entry takes its properties other than `operationName` and
      `responses` from the stripped copy `sortOperations` stores back. */
  lemma OperationEntryFromStripped(m: Member)
    requires m.name != XRow
    requires DistinctKeys(Props(m.value))
    ensures forall k :: k != "operationName" && k != "responses" ==>
      Get(OperationEntry(m), k) == Get(StripResponses(m).value, k)
  {
    OperationEntryFields(m);
    assert StripResponses(m).value == Obj(OmitFields(Props(m.value), "responses"));
  }

  // ---------------------------------------------------------------------------
  // Paths and the document

  /** The path entry for one key: its name, its sorted operations and its `x-row`. */
  function PathEntry(m: Member): (r: Json)
    ensures r.Obj?
    ensures Keys(r.fields) == {"pathName", "operations", XRow}
    ensures Get(r, "pathName") == Str(m.name)
    ensures Get(r, XRow) == Get(m.value, XRow)
    ensures Get(r, "operations") == Arr(Restore(OperationEntry, Props(m.value)))
    ensures PathShaped(m.value) ==> Get(r, "operations") == SortOperations(m.value)
  {
    var name := Member("pathName", Str(m.name));
    var operations := Member("operations", Arr(Restore(OperationEntry, Props(m.value))));
    var row := Member(XRow, Get(m.value, XRow));
    KeysCons(row, []);
    KeysCons(operations, [row]);
    KeysCons(name, [operations] + [row]);
    LookupCons(name, [operations] + [row], name.name);
    LookupCons(name, [operations] + [row], operations.name);
    LookupCons(name, [operations] + [row], row.name);
    LookupCons(operations, [row], operations.name);
    LookupCons(operations, [row], row.name);
    LookupCons(row, [], row.name);
    Obj([name] + ([operations] + [row]))
  }

  function PathNameOf(e: Json): Json {
    Get(e, "pathName")
  }

  /** `e` is the entry of a path of `paths`: its `pathName` is a key other than
      `x-row`, and its `x-row` and `operations` come from the path object under that key. */
  predicate DescribesPath(paths: seq<Member>, e: Json) {
    var name := Get(e, "pathName");
    && name.Str?
    && name.s != XRow
    && name.s in Keys(paths)
    && Get(e, XRow) == Get(Lookup(paths, name.s), XRow)
    && (PathShaped(Lookup(paths, name.s)) ==> Get(e, "operations") == SortOperations(Lookup(paths, name.s)))
  }

  /** Lines 19-35 of `sort`: the `paths` map as an array of path entries, one per
      key other than `x-row`, with no placeholder left, ordered by `x-row`. */
  function SortPaths(paths: Json): (r: Json)
    requires Keyed(paths) && PathsShaped(Props(paths))
    ensures r.Arr?
    ensures multiset(r.items) == multiset(Map(PathEntry, RealMembers(Props(paths))))
    ensures |r.items| == |RealMembers(Props(paths))|
    ensures forall i :: 0 <= i < |r.items| ==> r.items[i].Obj?
    ensures multiset(Map(PathNameOf, r.items)) == multiset(Map(KeyName, RealMembers(Props(paths))))
    ensures DistinctKeys(Props(paths)) ==> forall i :: 0 <= i < |r.items| ==> DescribesPath(Props(paths), r.items[i])
    ensures XRowsNumeric(Props(paths)) ==> AllKeyed(XRowKey, r.items) && Ascending(XRowKey, r.items)
  {
    SortPathsFacts(Props(paths));
    RestoredPathsDescribed(Props(paths));
    Arr(Restore(PathEntry, Props(paths)))
  }

  lemma SortPathsFacts(ms: seq<Member>)
    ensures XRowsNumeric(ms) ==>
      AllKeyed(XRowKey, Restore(PathEntry, ms)) && Ascending(XRowKey, Restore(PathEntry, ms))
    ensures multiset(Map(PathNameOf, Restore(PathEntry, ms))) == multiset(Map(KeyName, RealMembers(ms)))
    ensures multiset(Restore(PathEntry, ms)) == multiset(Map(PathEntry, RealMembers(ms)))
    ensures |Restore(PathEntry, ms)| == |RealMembers(ms)|
    ensures forall i :: 0 <= i < |Restore(PathEntry, ms)| ==> Restore(PathEntry, ms)[i].Obj?
  {
    RestorePermutes(PathEntry, ms);
    if XRowsNumeric(ms) {
      RestoreAscending(PathEntry, ms);
    }
    RestoreNames(PathEntry, PathNameOf, ms);
  }

  lemma RestoredPathsDescribed(ms: seq<Member>)
    ensures DistinctKeys(ms) ==>
      forall i :: 0 <= i < |Restore(PathEntry, ms)| ==> DescribesPath(ms, Restore(PathEntry, ms)[i])
  {
    if DistinctKeys(ms) {
      var r := Restore(PathEntry, ms);
      RestoreFrom(PathEntry, ms);
      forall i | 0 <= i < |r| ensures DescribesPath(ms, r[i]) {
        assert r[i] in r;
        var m :| m in ms && m.name != XRow && r[i] == PathEntry(m);
        var k :| 0 <= k < |ms| && ms[k] == m;
        PathEntryDescribes(ms, k);
      }
    }
  }

  lemma PathEntryDescribes(ms: seq<Member>, k: nat)
    requires DistinctKeys(ms)
    requires k < |ms| && ms[k].name != XRow
    ensures DescribesPath(ms, PathEntry(ms[k]))
  {
    LookupMember(ms, k);
    assert ms[k].name in Keys(ms);
  }

  /** `sort`: a document without a truthy `paths` comes back unchanged; otherwise
      `paths` is replaced, in place, by the sorted array of path entries and every
      other property of the document is left as it was. */
  function Sort(specs: Json): (r: Json)
    requires SpecsShaped(specs)
    ensures !(Truthy(specs) && Truthy(Get(specs, "paths"))) ==> r == specs
    ensures Truthy(specs) && Truthy(Get(specs, "paths")) ==>
      && r.Obj?
      && Get(r, "paths") == SortPaths(Get(specs, "paths"))
      && (forall k :: k != "paths" ==> Get(r, k) == Get(specs, k))
      && Keys(r.fields) == Keys(specs.fields)
      && |r.fields| == |specs.fields|
  {
    if Truthy(specs) && Truthy(Get(specs, "paths")) then
      Obj(Put(specs.fields, "paths", SortPaths(Get(specs, "paths"))))
    else
      specs
  }
}
