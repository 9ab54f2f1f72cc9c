/**
 * The glue in the web client's entry point (client/web/src/index.tsx): the
 * conversion of the JavaScript preferences into the object the search
 * module reads, the minimum-length gate in front of a search, and the click
 * counter that opens a chapter preview after four clicks on the same verse.
 */
module WebApp {
  import opened Base
  import opened WebPreferences

  // ---------------------------------------------------------------------------
  // Preferences for the search module
  // ---------------------------------------------------------------------------

  /** The keys whose value is truthy, in entry order: what
      `entries.reduce(reduceString, [])` collects. */
  function TrueKeys(entries: seq<(string, JsValue)>): seq<string>
  {
    if entries == [] then []
    else
      var last := entries[|entries| - 1];
      TrueKeys(entries[..|entries| - 1]) + if Truthy(last.1) then [last.0] else []
  }

  /** The `reduce` with `reduceString`, which pushes each key whose value is
      truthy onto the accumulator. */
  method CollectTrueKeys(entries: seq<(string, JsValue)>) returns (acc: seq<string>)
    ensures acc == TrueKeys(entries)
  {
    acc := [];
    for i := 0 to |entries|
      invariant acc == TrueKeys(entries[..i])
    {
      assert entries[..i + 1][..i] == entries[..i];
      if Truthy(entries[i].1) {
        acc := acc + [entries[i].0];
      }
    }
    assert entries[..|entries|] == entries;
  }

  /** A key is collected exactly when some entry holds it with a truthy
      value. */
  lemma {:induction false} TrueKeysIn(entries: seq<(string, JsValue)>, k: string)
    ensures k in TrueKeys(entries) <==> exists i | 0 <= i < |entries| :: entries[i].0 == k && Truthy(entries[i].1)
  {
    if entries != [] {
      var front := entries[..|entries| - 1];
      TrueKeysIn(front, k);
      if exists i | 0 <= i < |front| :: front[i].0 == k && Truthy(front[i].1) {
        var i :| 0 <= i < |front| && front[i].0 == k && Truthy(front[i].1);
        assert entries[i] == front[i];
      }
      if exists i | 0 <= i < |entries| :: entries[i].0 == k && Truthy(entries[i].1) {
        var i :| 0 <= i < |entries| && entries[i].0 == k && Truthy(entries[i].1);
        if i < |front| {
          assert front[i] == entries[i];
        }
      }
    }
  }

  /** Collecting keeps entry order: the keys of a concatenation are those
      of its parts, one after the other. */
  lemma {:induction false} TrueKeysAppend(a: seq<(string, JsValue)>, b: seq<(string, JsValue)>)
    ensures TrueKeys(a + b) == TrueKeys(a) + TrueKeys(b)
    decreases |b|
  {
    if b == [] {
      assert a + b == a;
    } else {
      var front := b[..|b| - 1];
      TrueKeysAppend(a, front);
      assert (a + b)[..|a + b| - 1] == a + front;
      assert (a + b)[|a + b| - 1] == b[|b| - 1];
    }
  }

  function Strs(keys: seq<string>): seq<JsValue>
  {
    seq(|keys|, i requires 0 <= i < |keys| => Str(keys[i]))
  }

  /** `Object.entries(toSearch[b]).reduce(reduceString, [])`, a
      `TypeError` when the collection is `null` or `undefined`. */
  function BookList(toSearch: JsValue, b: string): Option<JsValue>
  {
    match Get(toSearch, b)
    case None => None
    case Some(books) =>
      match ObjectEntries(books)
      case None => None
      case Some(entries) => Some(Arr(Strs(TrueKeys(entries))))
  }

  /** The `includedBooks` object, a `TypeError` when a collection or the
      D&C setting is `null` or `undefined`. */
  function IncludedBooks(toSearch: JsValue): Option<JsValue>
  {
    match (BookList(toSearch, "ot"), BookList(toSearch, "nt"), BookList(toSearch, "bom"),
           BookList(toSearch, "pogp"), At(toSearch, ["dc", "range"]))
    case (Some(ot), Some(nt), Some(bom), Some(pogp), Some(dc)) => Some(Obj(BookFields(ot, nt, bom, pogp, dc)))
    case _ => None
  }

  function BookFields(ot: JsValue, nt: JsValue, bom: JsValue, pogp: JsValue, dc: JsValue): seq<(string, JsValue)>
  {
    [("ot", ot), ("nt", nt), ("bom", bom), ("pogp", pogp), ("dc", dc)]
  }

  lemma {:induction false} BookFieldsLookup(ot: JsValue, nt: JsValue, bom: JsValue, pogp: JsValue, dc: JsValue)
    ensures var f := BookFields(ot, nt, bom, pogp, dc);
      Lookup(f, "ot") == Some(ot) && Lookup(f, "nt") == Some(nt) && Lookup(f, "bom") == Some(bom) &&
      Lookup(f, "pogp") == Some(pogp) && Lookup(f, "dc") == Some(dc)
  {
    var f := BookFields(ot, nt, bom, pogp, dc);
    LookupFirst(f, 0, "ot");
    LookupFirst(f, 1, "nt");
    LookupFirst(f, 2, "bom");
    LookupFirst(f, 3, "pogp");
    LookupFirst(f, 4, "dc");
  }

  /** `jsPreferencesToWasmPreferences`. */
  function WasmPreferences(prefs: JsValue): Option<JsValue>
  {
    match Get(prefs, "toSearch")
    case None => None
    case Some(toSearch) =>
      match (Get(toSearch, "includeSource"), IncludedBooks(toSearch))
      case (Some(sources), Some(books)) =>
        Some(Obj(WasmFields(Get(prefs, "and").value, Get(prefs, "caseSensitive").value, Get(prefs, "exact").value, sources, books)))
      case _ => None
  }

  function WasmFields(and: JsValue, caseSensitive: JsValue, exact: JsValue, sources: JsValue, books: JsValue): seq<(string, JsValue)>
  {
    [("and", and), ("caseSensitive", caseSensitive), ("exact", exact), ("includedSources", sources), ("includedBooks", books)]
  }

  lemma {:induction false} WasmFieldsLookup(and: JsValue, caseSensitive: JsValue, exact: JsValue, sources: JsValue, books: JsValue)
    ensures var f := WasmFields(and, caseSensitive, exact, sources, books);
      Lookup(f, "and") == Some(and) && Lookup(f, "caseSensitive") == Some(caseSensitive) &&
      Lookup(f, "exact") == Some(exact) && Lookup(f, "includedSources") == Some(sources) &&
      Lookup(f, "includedBooks") == Some(books)
  {
    var f := WasmFields(and, caseSensitive, exact, sources, books);
    LookupFirst(f, 0, "and");
    LookupFirst(f, 1, "caseSensitive");
    LookupFirst(f, 2, "exact");
    LookupFirst(f, 3, "includedSources");
    LookupFirst(f, 4, "includedBooks");
  }

  /** A value that can be read from: neither `null` nor `undefined`. */
  predicate Present(x: Option<JsValue>)
  {
    x.Some? && x.value != Undefined && x.value != Null
  }

  /** The conversion fails exactly on a missing `toSearch`, book collection
      or D&C setting. */
  lemma {:induction false} WasmPreferencesDefined(prefs: JsValue)
    ensures WasmPreferences(prefs).Some? <==>
      Present(Get(prefs, "toSearch")) &&
      var toSearch := Get(prefs, "toSearch").value;
      Present(Get(toSearch, "ot")) && Present(Get(toSearch, "nt")) && Present(Get(toSearch, "bom")) &&
      Present(Get(toSearch, "pogp")) && Present(Get(toSearch, "dc"))
  {
    if Present(Get(prefs, "toSearch")) {
      var toSearch := Get(prefs, "toSearch").value;
      assert At(toSearch, ["dc", "range"]).Some? <==> Present(Get(toSearch, "dc")) by {
        assert ["dc", "range"][1..] == ["range"];
        assert ["range"][1..] == [];
      }
    }
  }

  /** The converted object holds, in order, the flags, the included
      sources and the collections' book lists. */
  lemma {:induction false} WasmPreferencesShape(prefs: JsValue)
    returns (toSearch: JsValue, sources: JsValue, ot: JsValue, nt: JsValue, bom: JsValue, pogp: JsValue, dc: JsValue)
    requires WasmPreferences(prefs).Some?
    ensures Get(prefs, "toSearch") == Some(toSearch) && Get(toSearch, "includeSource") == Some(sources)
    ensures BookList(toSearch, "ot") == Some(ot) && BookList(toSearch, "nt") == Some(nt) &&
      BookList(toSearch, "bom") == Some(bom) && BookList(toSearch, "pogp") == Some(pogp) &&
      At(toSearch, ["dc", "range"]) == Some(dc)
    ensures Get(prefs, "and").Some? && Get(prefs, "caseSensitive").Some? && Get(prefs, "exact").Some?
    ensures WasmPreferences(prefs).value ==
      Obj(WasmFields(Get(prefs, "and").value, Get(prefs, "caseSensitive").value, Get(prefs, "exact").value,
                     sources, Obj(BookFields(ot, nt, bom, pogp, dc))))
  {
    toSearch := Get(prefs, "toSearch").value;
    sources := Get(toSearch, "includeSource").value;
    ot, nt, bom := BookList(toSearch, "ot").value, BookList(toSearch, "nt").value, BookList(toSearch, "bom").value;
    pogp, dc := BookList(toSearch, "pogp").value, At(toSearch, ["dc", "range"]).value;
  }

  /** The flags and the included sources pass through as they are, and so
      does the D&C range. */
  lemma {:induction false} WasmPreferencesFlags(prefs: JsValue)
    requires WasmPreferences(prefs).Some?
    ensures var toSearch := Get(prefs, "toSearch").value;
      var r := WasmPreferences(prefs).value;
      Get(r, "and") == Get(prefs, "and") &&
      Get(r, "caseSensitive") == Get(prefs, "caseSensitive") &&
      Get(r, "exact") == Get(prefs, "exact") &&
      Get(r, "includedSources") == Get(toSearch, "includeSource") &&
      Get(Get(r, "includedBooks").value, "dc") == At(toSearch, ["dc", "range"])
  {
    var toSearch, sources, ot, nt, bom, pogp, dc := WasmPreferencesShape(prefs);
    WasmFieldsLookup(Get(prefs, "and").value, Get(prefs, "caseSensitive").value, Get(prefs, "exact").value,
                     sources, Obj(BookFields(ot, nt, bom, pogp, dc)));
    BookFieldsLookup(ot, nt, bom, pogp, dc);
  }

  /** Each collection's book list holds the names checked in it, in order. */
  lemma {:induction false} WasmPreferencesBooks(prefs: JsValue, b: string)
    requires WasmPreferences(prefs).Some? && b in ["ot", "nt", "bom", "pogp"]
    ensures var toSearch := Get(prefs, "toSearch").value;
      Get(Get(WasmPreferences(prefs).value, "includedBooks").value, b) ==
        Some(Arr(Strs(TrueKeys(OwnEntries(Get(toSearch, b).value)))))
  {
    var toSearch, sources, ot, nt, bom, pogp, dc := WasmPreferencesShape(prefs);
    WasmFieldsLookup(Get(prefs, "and").value, Get(prefs, "caseSensitive").value, Get(prefs, "exact").value,
                     sources, Obj(BookFields(ot, nt, bom, pogp, dc)));
    BookFieldsLookup(ot, nt, bom, pogp, dc);
    BookListOf(toSearch, b);
  }

  lemma {:induction false} BookListOf(toSearch: JsValue, b: string)
    requires BookList(toSearch, b).Some?
    ensures BookList(toSearch, b).value == Arr(Strs(TrueKeys(OwnEntries(Get(toSearch, b).value))))
  {
  }

  // ---------------------------------------------------------------------------
  // The search gate
  // ---------------------------------------------------------------------------

  /** `SHORTEST_SEARCH_LENGTH`. */
  const ShortestSearchLength: nat := 2

  /** What a search leaves on the page: the result lines and the count shown
      (`null` as `None`). */
  datatype SearchOutcome = SearchOutcome(results: seq<string>, resultCount: Option<nat>)

  /** The debounced search: terms shorter than two characters are not
      searched. `search` is the search module's `full_match_search` under
      the current preferences. */
  function RunSearch(term: string, search: string -> seq<string>): (r: SearchOutcome)
  {
    var shouldSearch := |term| >= ShortestSearchLength;
    var results := if shouldSearch then search(term) else [];
    SearchOutcome(results, if shouldSearch then Some(|results|) else None)
  }

  /** A count is shown exactly when the term is long enough, and it is then
      the number of result lines; a short term shows nothing. */
  lemma {:induction false} RunSearchGate(term: string, search: string -> seq<string>)
    ensures var r := RunSearch(term, search);
      (r.resultCount.Some? <==> |term| >= 2) &&
      (r.resultCount.Some? ==> r.results == search(term) && r.resultCount.value == |r.results|) &&
      (|term| < 2 ==> r.results == [])
  {
  }

  // ---------------------------------------------------------------------------
  // The preview click counter
  // ---------------------------------------------------------------------------

  /** A clicked DOM element: its tag, the `data-verse-path` it carries and
      its parent. */
  datatype Element = Element(tagName: string, versePath: string, parent: Option<Element>)

  /** The result item a click lands on: the `LI` itself or the `LI` around
      the clicked element. */
  function ItemElement(target: Element): (r: Option<Element>)
    ensures r.Some? ==> r.value.tagName == "LI"
    ensures r.None? <==> target.tagName != "LI" && (target.parent.None? || target.parent.value.tagName != "LI")
  {
    if target.tagName == "LI" then Some(target)
    else if target.parent.Some? && target.parent.value.tagName == "LI" then target.parent
    else None
  }

  /** Four clicks in a row on the same verse open its chapter preview. */
  const PreviewClicks: nat := 4

  /** The counter's path and click count. */
  datatype CounterState = CounterState(previewPath: string, clicks: nat)

  const Reset := CounterState("", 0)

  /** A click on the item for `path`. */
  function Click(s: CounterState, path: string): CounterState
  {
    if path == s.previewPath then CounterState(path, s.clicks + 1) else CounterState(path, 1)
  }

  /** What happens to the counter: a click on some element, or the expiry of
      the four-second timer, which resets it. */
  datatype Event = Clicked(target: Element) | Expired

  function Step(s: CounterState, e: Event): CounterState
  {
    match e
    case Expired => Reset
    case Clicked(target) =>
      match ItemElement(target)
      case None => s
      case Some(item) => Click(s, item.versePath)
  }

  /** The counter after a sequence of events, from its initial state. */
  function Replay(events: seq<Event>): CounterState
  {
    if events == [] then Reset else Step(Replay(events[..|events| - 1]), events[|events| - 1])
  }

  /** The verse paths clicked since the last expiry. */
  function ClickedPaths(events: seq<Event>): seq<string>
  {
    if events == [] then []
    else
      var front := events[..|events| - 1];
      match events[|events| - 1]
      case Expired => []
      case Clicked(target) =>
        match ItemElement(target)
        case None => ClickedPaths(front)
        case Some(item) => ClickedPaths(front) + [item.versePath]
  }

  /** The length of the run of `p` at the end of `ps`. */
  function TrailingRun(ps: seq<string>, p: string): (n: nat)
    ensures n <= |ps|
  {
    if ps == [] || ps[|ps| - 1] != p then 0 else TrailingRun(ps[..|ps| - 1], p) + 1
  }

  /** The counter holds the last verse clicked since the timer last expired,
      and counts the clicks at the end of that stretch that went to that
      verse. */
  lemma {:induction false} ReplayCounts(events: seq<Event>)
    ensures var ps := ClickedPaths(events);
      Replay(events) == if ps == [] then Reset else CounterState(ps[|ps| - 1], TrailingRun(ps, ps[|ps| - 1]))
  {
    if events != [] {
      var front := events[..|events| - 1];
      ReplayCounts(front);
      var ps := ClickedPaths(front);
      match events[|events| - 1]
      case Expired =>
      case Clicked(target) =>
        match ItemElement(target)
        case None =>
        case Some(item) =>
          var p := item.versePath;
          var ps' := ps + [p];
          assert ps'[..|ps'| - 1] == ps;
          if ps != [] && ps[|ps| - 1] != p {
            assert TrailingRun(ps, p) == 0;
          }
    }
  }

  /** The preview opens on a click exactly when that click ends a run of at
      least four clicks on the same verse since the timer last expired. */
  lemma {:induction false} PreviewOpensAfterFourClicks(events: seq<Event>, target: Element)
    requires ItemElement(target).Some?
    ensures var p := ItemElement(target).value.versePath;
      var ps := ClickedPaths(events + [Clicked(target)]);
      ps[|ps| - 1] == p &&
      (Replay(events + [Clicked(target)]).clicks >= PreviewClicks <==> TrailingRun(ps, p) >= 4)
  {
    var all := events + [Clicked(target)];
    assert all[..|all| - 1] == events;
    ReplayCounts(all);
  }

  /** The counter object of the page: the path last clicked, the clicks
      counted on it and the id of the pending reset timer (0 for none). */
  class PreviewCounter {
    var previewPath: string
    var clicks: nat
    var timeout: nat

    function State(): CounterState
      reads this
    {
      CounterState(previewPath, clicks)
    }

    constructor()
      ensures State() == Reset && timeout == 0
    {
      previewPath := "";
      clicks := 0;
      timeout := 0;
    }

    /** `resetPreview`: clears the pending timer, if any, and resets the
        counter; `cleared` is the timer cancelled. */
    method ResetPreview() returns (cleared: Option<nat>)
      modifies this
      ensures cleared == if old(timeout) != 0 then Some(old(timeout)) else None
      ensures State() == Step(old(State()), Expired) && timeout == 0
    {
      cleared := None;
      if timeout != 0 {
        cleared := Some(timeout);
      }
      previewPath := "";
      clicks := 0;
      timeout := 0;
    }

    /** `previewListener`: a click outside any result item changes nothing;
        a click on one counts it, names the path to preview once four clicks
        in a row went to it, cancels the pending timer and records the new
        one, `timerId`. */
    method PreviewListener(target: Element, timerId: nat) returns (preview: Option<string>, cleared: Option<nat>)
      modifies this
      ensures State() == Step(old(State()), Clicked(target))
      ensures ItemElement(target).None? ==> preview.None? && cleared.None? && timeout == old(timeout)
      ensures ItemElement(target).Some? ==>
        (preview.Some? <==> clicks >= PreviewClicks) &&
        (preview.Some? ==> preview.value == ItemElement(target).value.versePath) &&
        cleared == (if old(timeout) != 0 then Some(old(timeout)) else None) &&
        timeout == timerId
    {
      preview := None;
      cleared := None;
      var item := ItemElement(target);
      if item.None? {
        return;
      }
      var path := item.value.versePath;
      if path == previewPath {
        clicks := clicks + 1;
      } else {
        previewPath := path;
        clicks := 1;
      }
      if clicks >= PreviewClicks {
        preview := Some(path);
      }
      if timeout != 0 {
        cleared := Some(timeout);
      }
      timeout := timerId;
    }
  }
}
