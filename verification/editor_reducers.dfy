/**
 The editor plugin's state reducers.

 The editor state is a record of three optional keys: the colour `theme`, the
 diagnostic `markers` shown in the editor, and the document `language`. Each of
 the five actions replaces or rewrites exactly one of them. A key that was never
 set is `None`; reading the markers of such a state yields the empty list, as
 `state.get('markers', List())` does.
 */
module EditorReducers {
  import opened Options

  /** One diagnostic. Only `source` is inspected by the reducers; the other
      fields are carried along unchanged. */
  datatype Marker = Marker(
    source: Option<string>,
    message: string,
    severity: int,
    startLineNumber: int,
    startColumn: int,
    endLineNumber: int,
    endColumn: int)

  datatype EditorState = EditorState(
    theme: Option<string>,
    markers: Option<seq<Marker>>,
    language: Option<string>)

  /** The actions the reducers handle, each with its payload. The payload of
      `ClearMarkers` is the source to clear; `None` is an `undefined` payload. */
  datatype Action =
    | SetTheme(theme: Option<string>)
    | SetMarkers(markers: seq<Marker>)
    | AppendMarkers(markers: seq<Marker>)
    | ClearMarkers(source: Option<string>)
    | SetLanguage(language: Option<string>)

  /** `state.get('markers', List())`. */
  function MarkersOf(state: EditorState): seq<Marker> {
    state.markers.GetOr([])
  }

  // ---------------------------------------------------------------------------
  // The five handlers

  function ReduceSetTheme(state: EditorState, theme: Option<string>): (r: EditorState)
    ensures r.theme == theme
    ensures r.markers == state.markers && r.language == state.language
  {
    state.(theme := theme)
  }

  function ReduceSetMarkers(state: EditorState, markers: seq<Marker>): (r: EditorState)
    ensures r.markers == Some(markers)
    ensures r.theme == state.theme && r.language == state.language
  {
    state.(markers := Some(markers))
  }

  /** The old markers, or none, followed by the payload. */
  function ReduceAppendMarkers(state: EditorState, markers: seq<Marker>): (r: EditorState)
    ensures r.markers.Some?
    ensures |MarkersOf(r)| == |MarkersOf(state)| + |markers|
    ensures MarkersOf(r)[..|MarkersOf(state)|] == MarkersOf(state)
    ensures MarkersOf(r)[|MarkersOf(state)|..] == markers
    ensures r.theme == state.theme && r.language == state.language
  {
    state.(markers := Some(MarkersOf(state) + markers))
  }

  function ReduceClearMarkers(state: EditorState, source: Option<string>): (r: EditorState)
    ensures r.markers.Some?
    ensures forall m :: m in MarkersOf(r) <==> m in MarkersOf(state) && m.source != source
    ensures Subsequence(MarkersOf(r), MarkersOf(state))
    ensures r.theme == state.theme && r.language == state.language
  {
    WithoutSourceSubsequence(MarkersOf(state), source);
    state.(markers := Some(WithoutSource(MarkersOf(state), source)))
  }

  function ReduceSetLanguage(state: EditorState, language: Option<string>): (r: EditorState)
    ensures r.language == language
    ensures r.theme == state.theme && r.markers == state.markers
  {
    state.(language := language)
  }

  /** Dispatch on the action type, as the reducer table does. Only a theme
      action changes the theme, only a language action the language, and only
      the three marker actions the markers. */
  function Reduce(state: EditorState, action: Action): (r: EditorState)
    ensures !action.SetTheme? ==> r.theme == state.theme
    ensures !action.SetLanguage? ==> r.language == state.language
    ensures action.SetTheme? || action.SetLanguage? ==> r.markers == state.markers
    ensures action.SetTheme? ==> r.theme == action.theme
    ensures action.SetLanguage? ==> r.language == action.language
    ensures action.SetMarkers? ==> r.markers == Some(action.markers)
    ensures action.AppendMarkers? ==> MarkersOf(r) == MarkersOf(state) + action.markers
    ensures action.ClearMarkers? ==> MarkersOf(r) == WithoutSource(MarkersOf(state), action.source)
  {
    match action
    case SetTheme(theme) => ReduceSetTheme(state, theme)
    case SetMarkers(markers) => ReduceSetMarkers(state, markers)
    case AppendMarkers(markers) => ReduceAppendMarkers(state, markers)
    case ClearMarkers(source) => ReduceClearMarkers(state, source)
    case SetLanguage(language) => ReduceSetLanguage(state, language)
  }

  // ---------------------------------------------------------------------------
  // Clearing markers by source

  /** `filterNot(marker => marker.get('source') === source)`. */
  function WithoutSource(ms: seq<Marker>, source: Option<string>): (r: seq<Marker>)
    ensures forall m :: m in r <==> m in ms && m.source != source
    ensures |r| <= |ms|
  {
    if ms == [] then []
    else
      assert ms == [ms[0]] + ms[1..];
      (if ms[0].source == source then [] else [ms[0]]) + WithoutSource(ms[1..], source)
  }

  /** `sub` is `s` with some elements deleted: the rest in their original order. */
  predicate Subsequence(sub: seq<Marker>, s: seq<Marker>)
    decreases |s|
  {
    if sub == [] then true
    else if s == [] then false
    else if sub[0] == s[0] then Subsequence(sub[1..], s[1..])
    else Subsequence(sub, s[1..])
  }

  lemma {:induction false} WithoutSourceSubsequence(ms: seq<Marker>, source: Option<string>)
    ensures Subsequence(WithoutSource(ms, source), ms)
  {
    if ms != [] {
      WithoutSourceSubsequence(ms[1..], source);
      var rest := WithoutSource(ms[1..], source);
      if ms[0].source != source {
        assert WithoutSource(ms, source)[1..] == rest;
      } else {
        assert WithoutSource(ms, source) == rest;
        if rest != [] {
          assert rest[0] in rest;
          assert rest[0] != ms[0];
        }
      }
    }
  }

  /** Every marker of another source is kept as many times as it occurs, and none
      of the cleared source survives. */
  lemma {:induction false} WithoutSourceCounts(ms: seq<Marker>, source: Option<string>, m: Marker)
    ensures multiset(WithoutSource(ms, source))[m] == if m.source == source then 0 else multiset(ms)[m]
  {
    if ms != [] {
      var head := if ms[0].source == source then [] else [ms[0]];
      WithoutSourceCounts(ms[1..], source, m);
      assert multiset(ms) == multiset([ms[0]]) + multiset(ms[1..]) by {
        assert ms == [ms[0]] + ms[1..];
      }
      assert multiset(WithoutSource(ms, source)) == multiset(head) + multiset(WithoutSource(ms[1..], source));
    }
  }

  /** Filtering distributes over concatenation. */
  lemma {:induction false} WithoutSourceAppend(a: seq<Marker>, b: seq<Marker>, source: Option<string>)
    ensures WithoutSource(a + b, source) == WithoutSource(a, source) + WithoutSource(b, source)
  {
    if a == [] {
      assert a + b == b;
    } else {
      assert (a + b)[1..] == a[1..] + b;
      WithoutSourceAppend(a[1..], b, source);
    }
  }

  lemma {:induction false} WithoutSourceIdempotent(ms: seq<Marker>, source: Option<string>)
    ensures WithoutSource(WithoutSource(ms, source), source) == WithoutSource(ms, source)
  {
    if ms != [] {
      var head := if ms[0].source == source then [] else [ms[0]];
      WithoutSourceIdempotent(ms[1..], source);
      WithoutSourceAppend(head, WithoutSource(ms[1..], source), source);
    }
  }

  lemma {:induction false} WithoutSourceCommutes(ms: seq<Marker>, s1: Option<string>, s2: Option<string>)
    ensures WithoutSource(WithoutSource(ms, s1), s2) == WithoutSource(WithoutSource(ms, s2), s1)
  {
    if ms != [] {
      var h1 := if ms[0].source == s1 then [] else [ms[0]];
      var h2 := if ms[0].source == s2 then [] else [ms[0]];
      WithoutSourceCommutes(ms[1..], s1, s2);
      WithoutSourceAppend(h1, WithoutSource(ms[1..], s1), s2);
      WithoutSourceAppend(h2, WithoutSource(ms[1..], s2), s1);
    }
  }

  lemma {:induction false} WithoutSourceNoMatch(ms: seq<Marker>, source: Option<string>)
    requires forall i :: 0 <= i < |ms| ==> ms[i].source != source
    ensures WithoutSource(ms, source) == ms
  {
    if ms != [] {
      WithoutSourceNoMatch(ms[1..], source);
    }
  }

  // ---------------------------------------------------------------------------
  // Properties of action sequences

  /** Clearing the markers of a source keeps exactly the markers of the other
      sources, each as often as before. */
  lemma ClearMarkersKeepsOthers(state: EditorState, source: Option<string>, m: Marker)
    ensures multiset(MarkersOf(ReduceClearMarkers(state, source)))[m] ==
      if m.source == source then 0 else multiset(MarkersOf(state))[m]
  {
    WithoutSourceCounts(MarkersOf(state), source, m);
  }

  /** Clearing a source twice is clearing it once. */
  lemma ClearMarkersIdempotent(state: EditorState, source: Option<string>)
    ensures ReduceClearMarkers(ReduceClearMarkers(state, source), source) == ReduceClearMarkers(state, source)
  {
    WithoutSourceIdempotent(MarkersOf(state), source);
  }

  /** Clearing two sources gives the same state in either order. */
  lemma ClearMarkersCommute(state: EditorState, s1: Option<string>, s2: Option<string>)
    ensures ReduceClearMarkers(ReduceClearMarkers(state, s1), s2) ==
      ReduceClearMarkers(ReduceClearMarkers(state, s2), s1)
  {
    WithoutSourceCommutes(MarkersOf(state), s1, s2);
  }

  /** Clearing a source no marker has leaves the markers as they were (an absent
      list becomes the empty list). */
  lemma ClearMarkersNoMatch(state: EditorState, source: Option<string>)
    requires forall i :: 0 <= i < |MarkersOf(state)| ==> MarkersOf(state)[i].source != source
    ensures ReduceClearMarkers(state, source) == state.(markers := Some(MarkersOf(state)))
  {
    WithoutSourceNoMatch(MarkersOf(state), source);
  }

  /** Clearing after appending is appending the cleared payload to the cleared markers. */
  lemma ClearAfterAppend(state: EditorState, markers: seq<Marker>, source: Option<string>)
    ensures ReduceClearMarkers(ReduceAppendMarkers(state, markers), source) ==
      ReduceAppendMarkers(ReduceClearMarkers(state, source), WithoutSource(markers, source))
  {
    WithoutSourceAppend(MarkersOf(state), markers, source);
  }

  /** Two appends are one append of both payloads. */
  lemma AppendMarkersTwice(state: EditorState, a: seq<Marker>, b: seq<Marker>)
    ensures ReduceAppendMarkers(ReduceAppendMarkers(state, a), b) == ReduceAppendMarkers(state, a + b)
  {
    assert MarkersOf(state) + a + b == MarkersOf(state) + (a + b);
  }

  /** Appending to an empty or absent list sets the markers to the payload. */
  lemma AppendToNoMarkers(state: EditorState, markers: seq<Marker>)
    requires MarkersOf(state) == []
    ensures ReduceAppendMarkers(state, markers) == ReduceSetMarkers(state, markers)
  {
    assert [] + markers == markers;
  }
}
