# Order-restoring sorter and editor reducers

This project models two small pieces of an API-description editor.

- **The `Sorter` service.** A binding layer upstream enumerates object keys
  alphabetically, which loses the order in which the author wrote them. Each
  entry carries its original line in a reserved `x-row` property. `sort` uses it
  to turn three keyed levels of the document into arrays in author order:
  - the `paths` map becomes an array of path entries `{pathName, operations, x-row}`;
  - each path's operations become an array of operation entries
    `{operationName, responses, ...}`;
  - each operation's `responses` map becomes an array of response entries
    `{responseCode, ...}`.

  Every level runs the same pipeline. Each key becomes an entry; the `x-row`
  key itself becomes an `undefined` placeholder. The entries are sorted with
  the comparator `a['x-row'] - b['x-row']`. `_.compact` then removes the
  placeholders.
- **The editor-monaco reducers.** Five handlers update the editor state
  `{theme, markers, language}`: set theme, set markers, append markers, clear
  markers of one source, and set language.

Files:
- `options.dfy`: `Option`.
- `json.dfy`: JSON values and the JavaScript/lodash object operations the
  sorter uses:
  - property read and write;
  - `_.omit`;
  - `_.extend`.

  An object is the sequence of its own properties; a new property goes last.
- `key_sort.dfy`: an insertion sort by a partial integer key. It is the
  comparator's sort; an entry without a numeric key never precedes another.
  Includes the permutation and ordering lemmas.
- `xrow_order.dfy`: `Array.prototype.sort` as the source uses it (placeholders
  go to the end without consulting the comparator), `_.compact`, and the
  per-level sort-and-compact step.
- `sorter.dfy`: the three levels, `sort`, and the side effect `sortOperations`
  leaves on the path object.
- `sorter_examples.dfy`: a concrete ordinary document shown to meet the shape `sort` needs.
- `editor_reducers.dfy`: the editor state, the five handlers, and the laws
  relating them.

The code throws on several inputs: an operation without `responses`, a
`null` or string operation, and a `null` path (see "Left out"). The model
excludes those inputs with the shape predicates `OperationShaped`,
`PathShaped` and `SpecsShaped` rather than modelling them as errors.

Two functions carry no contract of their own beyond their shape; lemmas state
what they compute. `Sorter.Restore`, the per-level pipeline, is described by
`Sorter.RestorePermutes`, `Sorter.RestoreFrom`, `Sorter.RestoreAscending` and
`Sorter.RestoreNames`. `Sorter.OperationEntry` is described by
`Sorter.OperationEntryFields` and `Sorter.OperationEntryXRow`.

Only the `x-row` key itself yields a placeholder. An entry without a numeric
`x-row` is kept; it merely takes an unspecified place in the order, and the
model claims no order for it.

## Model

| member | source | states |
|---|---|---|
| KeySort.InsertionSort | app/scripts/services/sorter.js:30-32 | Sorting with the x-row comparator returns a permutation of its input. |
| KeySort.InsertionSortAscending | app/scripts/services/sorter.js:30-32 | When every element has a numeric x-row, the sorted sequence is ascending by x-row. |
| KeySort.InsertionSortMap | app/scripts/services/sorter.js:30-32 | Sorting preserves the multiset of any projection of the elements, e.g. their names. |
| XRowOrder.JsSort | app/scripts/services/sorter.js:30-32 | `Array.prototype.sort` returns a permutation of the array with every `undefined` placeholder after every real element. |
| XRowOrder.Compact | app/scripts/services/sorter.js:34-35 | `_.compact` keeps exactly the truthy elements and never lengthens the array. |
| XRowOrder.CompactRemovesHoles | app/scripts/services/sorter.js:30-35 | When every slot is a placeholder or an object, sort-then-compact equals sorting only the real entries; every survivor is an object. |
| XRowOrder.SortAndCompact | app/scripts/services/sorter.js:30-35 | Sort-then-compact yields exactly the real entries: a permutation of the non-placeholder slots, all objects, ascending by x-row when all are numeric. |
| JsonValues.Put | app/scripts/services/sorter.js:35 | Assigning a property sets that key and leaves every other key's value alone. The key set gains only that key, and unique keys stay unique. |
| JsonValues.OmitFields | app/scripts/services/sorter.js:58 | `_.omit(o, k)` keeps exactly the members not named `k`, so `k` reads as undefined and every other key reads as before. |
| JsonValues.ExtendFields | app/scripts/services/sorter.js:61 | `_.extend` makes every source key read as the source value and every other key read as the destination value. The key set is the union of both. |
| Sorter.RestorePermutes | app/scripts/services/sorter.js:19-35 | One level's result is a permutation of the entries of the keys other than `x-row`, one per key, each an object. |
| Sorter.RestoreFrom | app/scripts/services/sorter.js:19-29 | Every element of one level's result is the entry built from some key other than `x-row`. |
| Sorter.RestoreAscending | app/scripts/services/sorter.js:30-32 | One level's result is ascending by x-row when every real entry has a numeric x-row. |
| Sorter.RestoreNames | app/scripts/services/sorter.js:19-35 | The names read back from one level's entries are a permutation of the keys other than `x-row`. |
| Sorter.ResponseEntry | app/scripts/services/sorter.js:80-81 | A response entry is `{responseCode: key}` extended with the response's own fields. An own field overrides the key-derived `responseCode`, and absent fields stay absent. |
| Sorter.ResponseEntryXRow | app/scripts/services/sorter.js:80-81 | A response entry has the same x-row as the response it was built from. |
| Sorter.SortResponses | app/scripts/services/sorter.js:72-90 | `sortResponses` returns one object per response key other than `x-row`, ascending by x-row when all are numeric. With no own `responseCode`, the response codes are a permutation of those keys. |
| Sorter.OperationEntryFields | app/scripts/services/sorter.js:52-61 | An operation entry holds the sorted responses array and every field of the operation except `responses`. Its `operationName` is the key unless the operation has its own. |
| Sorter.OperationEntryXRow | app/scripts/services/sorter.js:52-61 | An operation entry has the same x-row as the operation it was built from. |
| Sorter.SortOperations | app/scripts/services/sorter.js:44-70 | `sortOperations` returns one object per operation key other than `x-row`, ascending by x-row when all are numeric. With no own `operationName`, the operation names are a permutation of those keys. |
| Sorter.OperationsAfterSort | app/scripts/services/sorter.js:57-58 | After `sortOperations`, the path object keeps its keys in order and its `x-row` member as it was. Each operation loses `responses` and keeps every other field. |
| Sorter.OperationEntryFromStripped | app/scripts/services/sorter.js:57-61 | An operation entry's fields other than `operationName` and `responses` are those of the stripped operation stored back into the path. |
| Sorter.PathEntry | app/scripts/services/sorter.js:23-29 | A path entry has exactly the keys `pathName`, `operations` and `x-row`. They hold the key, the path's sorted operations and the path's own x-row. |
| Sorter.PathEntryDescribes | app/scripts/services/sorter.js:23-29 | With unique path keys, the entry built from a path names it, and its x-row and operations are read from that path. |
| Sorter.SortPaths | app/scripts/services/sorter.js:19-35 | The `paths` array holds exactly one entry per path key other than `x-row`, and its `pathName`s are a permutation of those keys. Each entry's x-row and operations are its path's. It is ascending by x-row when all are numeric. |
| SorterExamples.OrdinaryDocumentShaped | app/scripts/services/sorter.js:17-27 | A document with one path, one operation and one response meets the shape `sort` needs, so the paths-level contracts apply to ordinary documents. |
| Sorter.Sort | app/scripts/services/sorter.js:17-39 | A document that is falsy or has no truthy `paths` is returned unchanged. Otherwise only `paths` changes: it becomes the sorted array, and every other property and the key set stay the same. |
| EditorReducers.ReduceSetTheme | src/plugins/editor-monaco/reducers.js:10-12 | Set theme: the theme becomes the payload; markers and language are unchanged. |
| EditorReducers.ReduceSetMarkers | src/plugins/editor-monaco/reducers.js:13-15 | Set markers: the markers become the payload; theme and language are unchanged. |
| EditorReducers.ReduceAppendMarkers | src/plugins/editor-monaco/reducers.js:16-19 | Append markers: the new length is the old length (zero when absent) plus the payload's. The old markers are a prefix and the payload is the suffix; nothing else changes. |
| EditorReducers.ReduceClearMarkers | src/plugins/editor-monaco/reducers.js:20-26 | Clear markers: a marker survives iff it was present and its source differs, in original relative order; nothing else changes. |
| EditorReducers.ReduceSetLanguage | src/plugins/editor-monaco/reducers.js:27-29 | Set language: the language becomes the payload; theme and markers are unchanged. |
| EditorReducers.Reduce | src/plugins/editor-monaco/reducers.js:9-30 | Only the theme action changes the theme and only the language action the language. Theme and language actions leave the markers alone. Set markers stores the payload, append adds it after the old markers, and clear keeps exactly the markers of other sources. |
| EditorReducers.WithoutSource | src/plugins/editor-monaco/reducers.js:22-24 | `filterNot` by source keeps exactly the markers of other sources. |
| EditorReducers.WithoutSourceSubsequence | src/plugins/editor-monaco/reducers.js:22-24 | The filtered markers are a subsequence of the original: their relative order is kept. |
| EditorReducers.WithoutSourceAppend | src/plugins/editor-monaco/reducers.js:22-24 | Filtering a concatenation is concatenating the filtered parts. |
| EditorReducers.ClearMarkersKeepsOthers | src/plugins/editor-monaco/reducers.js:20-26 | Clearing keeps each marker of another source as many times as it occurred and none of the cleared source. |
| EditorReducers.ClearMarkersIdempotent | src/plugins/editor-monaco/reducers.js:20-26 | Clearing a source twice gives the same state as clearing it once. |
| EditorReducers.ClearMarkersCommute | src/plugins/editor-monaco/reducers.js:20-26 | Clearing two sources gives the same state in either order. |
| EditorReducers.ClearMarkersNoMatch | src/plugins/editor-monaco/reducers.js:20-26 | Clearing a source no marker carries leaves the markers as they were. |
| EditorReducers.ClearAfterAppend | src/plugins/editor-monaco/reducers.js:16-26 | Appending then clearing equals clearing, then appending the payload with that source filtered out. |
| EditorReducers.AppendMarkersTwice | src/plugins/editor-monaco/reducers.js:16-19 | Two appends equal one append of both payloads in order. |
| EditorReducers.AppendToNoMarkers | src/plugins/editor-monaco/reducers.js:13-19 | Appending to absent or empty markers is the same as setting the markers to the payload. |

## Left out

- Sort order of entries without a numeric `x-row`: the subtraction then yields `NaN`, which gives an inconsistent comparator. `Array.prototype.sort`'s order is unspecified for such a comparator. The model uses one consistent order (such an entry never precedes another), claims only a permutation in that case, and claims ascending order only when every real entry's `x-row` is numeric. No claim is made about ties.
- The subtraction's coercion of `null`, booleans and numeric strings to numbers: only an integer `x-row` counts as numeric here. Non-integer numbers are not modelled.
- The crash paths, on which the source throws a `TypeError`; `OperationShaped`, `PathShaped` and `SpecsShaped` exclude them:
  - an operation without `responses` reaches `Object.keys(undefined)` (app/scripts/services/sorter.js:75);
  - a `null` operation throws when `.responses` is read (line 54);
  - a string operation has no `responses`, so it also reaches `Object.keys(undefined)` (line 75);
  - a `null` path reaches `Object.keys(null)` (line 47).

  Array values, whose `Object.keys` yields indices, are excluded as well.
- `_.extend` with a string or array source: only objects contribute properties (`Props`).
- In-place mutation: `sort` rewrites `specs.paths` and the operation maps in place, so any alias of the old `paths` object sees those changes. `Sort` instead returns the new document, and `OperationsAfterSort` states the effect on a path object.
- Running `sort` on its own output: `paths` is then an array, which the model excludes. The source throws there as soon as `paths` has an entry. Each entry's `pathName` is a string with no `responses`, so `sortResponses` reaches `Object.keys(undefined)` (app/scripts/services/sorter.js:75).
- Sorter.OperationsAfterSort: describes one operations map after the call, on its own. `Sort` no longer references the old path objects, so the effect is visible only through aliases of them, which the model does not track.
- Sorter.SortResponses: the ascending-order claim also needs every response to have unique keys (`EntriesDistinct`), which every JavaScript object has. The same holds for Sorter.SortOperations.
- Immutable.js specifics (`fromJS`, `List`, `Map.set`): the state is a record of three optional fields and markers are a sequence of records. Other keys of the state, and payloads that are not marker lists, are not modelled.
- The rest of the editor: the diagnostics provider (timers and workers), the semantic-tokens adapter, the React components, plugin registration, option merging in `src/index.js`, the webpack configuration and the worker bootstrap. The tests are not modelled either.
- Shared path objects: when two path keys refer to the same object (a YAML alias, for instance), the first `sortOperations` call strips `responses` from its operations in place (app/scripts/services/sorter.js:58). The second call then reaches `Object.keys(undefined)` (line 75) and throws. The model treats the document as a tree and builds both entries.
- Integer-like keys: JavaScript enumerates integer-like property names (`"200"`) before all other names, in numeric order. The model keeps insertion order and appends every new property, so the field order of `ResponseEntry` and `OperationEntry` differs from JavaScript's when a response or operation has such own keys. No contract depends on field order.
