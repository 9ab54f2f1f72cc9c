/**
 * The per-collection panel of the web client's preferences
 * (client/web/src/BookPreferences.tsx): the summary shown beside the
 * collection's title, the "all included" test behind the "Use all" /
 * "Exclude all" button, the two D&C section sliders and their bounds, and
 * the preference writes its controls make.
 *
 * The component's props are modelled with their declared types: optional
 * props are `Option`s, the `booksIncluded` map is a property list of
 * booleans, and numbers are integers.
 */
module BookPreferences {
  import opened Base
  import Text
  import WebPreferences

  /** `FIRST_DC_SECTION` and `LAST_DC_SECTION`. */
  const FirstDcSection: int := 1
  const LastDcSection: int := 138

  /** `${n}` for an integer. */
  function IntString(n: int): (s: string)
    ensures s != []
  {
    if n < 0 then "-" + Text.DecimalString(-n) else Text.DecimalString(n)
  }

  /** `booksIncluded[x]`: a book missing from the map reads as `undefined`,
      which is falsy. */
  predicate BookOn(books: seq<(string, bool)>, x: string)
  {
    if books == [] then false
    else if books[0].0 == x then books[0].1
    else BookOn(books[1..], x)
  }

  /** `Object.values(books).filter(x => x).length`. */
  function TrueCount(books: seq<(string, bool)>): (n: nat)
    ensures n <= |books|
  {
    if books == [] then 0
    else TrueCount(books[..|books| - 1]) + if books[|books| - 1].1 then 1 else 0
  }

  // ---------------------------------------------------------------------------
  // The summary beside the title
  // ---------------------------------------------------------------------------

  /** `getSelectedCount`: nothing for an excluded collection, `(all)` when
      everything is included, otherwise the number of books checked or, for
      a collection without a book map, the section range. */
  function SelectedCount(includeSource: bool, allIncluded: bool, booksIncluded: Option<seq<(string, bool)>>, min: int, max: int): string
  {
    if !includeSource then ""
    else if allIncluded then "(all)"
    else match booksIncluded
      case Some(books) =>
        // The `|| ''` fallback in the source never applies: the template
        // string always holds at least its parentheses.
        "(" + Text.DecimalString(TrueCount(books)) + ")"
      case None => "(" + IntString(min) + " - " + IntString(max) + ")"
  }

  /** The summary is empty exactly when the collection is excluded; an
      included collection shows `(all)`, or a parenthesised count from which
      the number of checked books reads back, or the range. */
  lemma {:induction false} SelectedCountCases(includeSource: bool, allIncluded: bool, booksIncluded: Option<seq<(string, bool)>>, min: int, max: int)
    ensures var r := SelectedCount(includeSource, allIncluded, booksIncluded, min, max);
      (r == "" <==> !includeSource) &&
      (includeSource && allIncluded ==> r == "(all)") &&
      (includeSource && !allIncluded && booksIncluded.Some? ==>
        2 < |r| && r[0] == '(' && r[|r| - 1] == ')' &&
        Text.ParseDecimal(r[1..|r| - 1]) == TrueCount(booksIncluded.value)) &&
      (includeSource && !allIncluded && booksIncluded.None? ==>
        r == "(" + IntString(min) + " - " + IntString(max) + ")")
  {
    var r := SelectedCount(includeSource, allIncluded, booksIncluded, min, max);
    if includeSource && !allIncluded && booksIncluded.Some? {
      var d := Text.DecimalString(TrueCount(booksIncluded.value));
      assert r == "(" + d + ")";
      assert r[1..|r| - 1] == d;
      Text.ParseDecimalString(TrueCount(booksIncluded.value));
    }
  }

  // ---------------------------------------------------------------------------
  // allIncluded
  // ---------------------------------------------------------------------------

  /** `bookOrder.every(x => booksIncluded[x])`; reading a book of a missing
      map is a `TypeError` (`None`), which `every` only reaches for a
      nonempty order. */
  function EveryIncluded(order: seq<string>, booksIncluded: Option<seq<(string, bool)>>): Option<bool>
  {
    if order == [] then Some(true)
    else match booksIncluded
      case None => None
      case Some(books) =>
        if BookOn(books, order[0]) then EveryIncluded(order[1..], booksIncluded) else Some(false)
  }

  /** `allIncluded`: every book of the order is checked, or the section
      range spans `[min, max]`. */
  function AllIncluded(bookOrder: Option<seq<string>>, booksIncluded: Option<seq<(string, bool)>>,
                       numberRange: Option<(int, int)>, min: Option<int>, max: Option<int>): Option<bool>
  {
    var everyBook := match bookOrder case None => Some(false) case Some(order) => EveryIncluded(order, booksIncluded);
    match everyBook
    case None => None
    case Some(true) => Some(true)
    case Some(false) =>
      Some(numberRange.Some? && min == Some(numberRange.value.0) && max == Some(numberRange.value.1))
  }

  /** `every` fails only on a nonempty order without a book map, and
      otherwise holds exactly when each book of the order is checked. */
  lemma {:induction false} EveryIncludedIff(order: seq<string>, booksIncluded: Option<seq<(string, bool)>>)
    ensures EveryIncluded(order, booksIncluded).None? <==> order != [] && booksIncluded.None?
    ensures booksIncluded.Some? ==>
      (EveryIncluded(order, booksIncluded) == Some(true) <==> forall j | 0 <= j < |order| :: BookOn(booksIncluded.value, order[j]))
    decreases order
  {
    if order != [] && booksIncluded.Some? && BookOn(booksIncluded.value, order[0]) {
      EveryIncludedIff(order[1..], booksIncluded);
      var books := booksIncluded.value;
      if forall j | 0 <= j < |order| - 1 :: BookOn(books, order[1..][j]) {
        forall j | 0 <= j < |order|
          ensures BookOn(books, order[j])
        {
          if j > 0 {
            assert order[j] == order[1..][j - 1];
          }
        }
      }
      if forall j | 0 <= j < |order| :: BookOn(books, order[j]) {
        forall j | 0 <= j < |order| - 1
          ensures BookOn(books, order[1..][j])
        {
          assert order[1..][j] == order[j + 1];
        }
      }
    }
  }

  /** `allIncluded` is a `TypeError` only for a nonempty order without a
      book map; otherwise it holds exactly when every book of the order is
      checked or the range equals `[min, max]`. */
  lemma {:induction false} AllIncludedIff(bookOrder: Option<seq<string>>, booksIncluded: Option<seq<(string, bool)>>,
                                          numberRange: Option<(int, int)>, min: Option<int>, max: Option<int>)
    ensures AllIncluded(bookOrder, booksIncluded, numberRange, min, max).None? <==>
      bookOrder.Some? && bookOrder.value != [] && booksIncluded.None?
    ensures booksIncluded.Some? ==>
      (AllIncluded(bookOrder, booksIncluded, numberRange, min, max) == Some(true) <==>
        (bookOrder.Some? && forall j | 0 <= j < |bookOrder.value| :: BookOn(booksIncluded.value, bookOrder.value[j])) ||
        (numberRange.Some? && min == Some(numberRange.value.0) && max == Some(numberRange.value.1)))
  {
    if bookOrder.Some? {
      EveryIncludedIff(bookOrder.value, booksIncluded);
    }
  }

  // ---------------------------------------------------------------------------
  // The D&C sliders
  // ---------------------------------------------------------------------------

  /** `numberRange || [FIRST_DC_SECTION, LAST_DC_SECTION]`. */
  function CurrentRange(numberRange: Option<(int, int)>): (int, int)
  {
    match numberRange
    case Some(range) => range
    case None => (FirstDcSection, LastDcSection)
  }

  /** `setSlider`'s new range after the thumb `id` moves to `v`: the moved
      thumb takes the value, and the other one gives way when crossed. */
  function SliderRange(id: string, v: int, currentMin: int, currentMax: int): (r: (int, int))
    ensures r.0 <= r.1
    ensures Text.EndsWith(id, "-min") ==> r.0 == v && r.1 >= currentMax && (r.1 == currentMax || r.1 == v)
    ensures !Text.EndsWith(id, "-min") ==> r.1 == v && r.0 <= currentMin && (r.0 == currentMin || r.0 == v)
  {
    if Text.EndsWith(id, "-min") then (v, if currentMax < v then v else currentMax)
    else (if currentMin < v then currentMin else v, v)
  }

  /** A move that does not cross the other thumb leaves it where it was. */
  lemma {:induction false} SliderRangeKeepsOther(id: string, v: int, currentMin: int, currentMax: int)
    requires Text.EndsWith(id, "-min") ==> v <= currentMax
    requires !Text.EndsWith(id, "-min") ==> currentMin <= v
    ensures SliderRange(id, v, currentMin, currentMax) ==
      if Text.EndsWith(id, "-min") then (v, currentMax) else (currentMin, v)
  {
  }

  /** The write `setSlider` makes: `setPathValue(['dc', 'range'], range)`. */
  function SetSlider(prefs: WebPreferences.JsValue, id: string, v: int, currentMin: int, currentMax: int): Option<WebPreferences.JsValue>
  {
    var range := SliderRange(id, v, currentMin, currentMax);
    WebPreferences.SetPathValue(prefs, ["dc", "range"], WebPreferences.Arr([WebPreferences.Num(range.0), WebPreferences.Num(range.1)]))
  }

  /** After the write, the stored D&C range is the new, ordered range. */
  lemma {:induction false} SetSliderStores(prefs: WebPreferences.JsValue, id: string, v: int, currentMin: int, currentMax: int)
    requires SetSlider(prefs, id, v, currentMin, currentMax).Some?
    ensures var range := SliderRange(id, v, currentMin, currentMax);
      range.0 <= range.1 &&
      WebPreferences.At(SetSlider(prefs, id, v, currentMin, currentMax).value, ["toSearch", "dc", "range"]) ==
        Some(WebPreferences.Arr([WebPreferences.Num(range.0), WebPreferences.Num(range.1)]))
  {
    var range := SliderRange(id, v, currentMin, currentMax);
    var value := WebPreferences.Arr([WebPreferences.Num(range.0), WebPreferences.Num(range.1)]);
    var path := ["toSearch", "dc", "range"];
    assert ["toSearch"] + ["dc", "range"] == path;
    assert WebPreferences.KeysNonEmpty(path) by {
      forall j | 0 <= j < |path|
        ensures path[j] != ""
      {
        assert path[j] in {"toSearch", "dc", "range"};
      }
    }
    WebPreferences.DeepSetAt(path, value, prefs, false);
  }

  /** `Math.floor((currentMax + currentMin) / 2)`; Dafny's division by a
      positive divisor already rounds down. */
  function Pivot(currentMin: int, currentMax: int): int
  {
    (currentMax + currentMin) / 2
  }

  /** The min slider's upper bound: `Math.min(max, Math.max(pivot, currentMin + 1))`. */
  function MinSliderMax(max: int, pivot: int, currentMin: int): int
  {
    var m := if pivot < currentMin + 1 then currentMin + 1 else pivot;
    if max < m then max else m
  }

  /** The max slider's lower bound: `Math.max(min, Math.min(pivot, currentMax - 1))`. */
  function MaxSliderMin(min: int, pivot: int, currentMax: int): int
  {
    var m := if currentMax - 1 < pivot then currentMax - 1 else pivot;
    if m < min then min else m
  }

  /** The min slider never reaches above `max` and the max slider never
      below `min`; for a proper range inside `[min, max]` each thumb lies on
      its own slider and the two sliders meet around the pivot. */
  lemma {:induction false} SliderBounds(min: int, max: int, currentMin: int, currentMax: int)
    ensures var pivot := Pivot(currentMin, currentMax);
      MinSliderMax(max, pivot, currentMin) <= max && min <= MaxSliderMin(min, pivot, currentMax)
    ensures min <= currentMin < currentMax <= max ==>
      var pivot := Pivot(currentMin, currentMax);
      currentMin <= pivot < currentMax &&
      min <= currentMin <= MinSliderMax(max, pivot, currentMin) &&
      MaxSliderMin(min, pivot, currentMax) <= currentMax <= max &&
      MaxSliderMin(min, pivot, currentMax) <= pivot <= MinSliderMax(max, pivot, currentMin)
  {
  }

  // ---------------------------------------------------------------------------
  // The other controls
  // ---------------------------------------------------------------------------

  /** The "Hide" / "Use" button: `setPathValue(['includeSource', bookronym], !includeSource)`. */
  function ToggleSource(prefs: WebPreferences.JsValue, bookronym: string, includeSource: bool): Option<WebPreferences.JsValue>
  {
    WebPreferences.SetPathValue(prefs, ["includeSource", bookronym], WebPreferences.Bool(!includeSource))
  }

  /** A book's checkbox: `setPathValue([bookronym, x], checked)`. */
  function CheckBook(prefs: WebPreferences.JsValue, bookronym: string, x: string, checked: bool): Option<WebPreferences.JsValue>
  {
    WebPreferences.SetPathValue(prefs, [bookronym, x], WebPreferences.Bool(checked))
  }

  /** A two-key write below `toSearch` stores its value at that path. */
  lemma {:induction false} SetPathValueAt(prefs: WebPreferences.JsValue, k1: string, k2: string, value: WebPreferences.JsValue)
    requires k1 != "" && k2 != ""
    requires WebPreferences.SetPathValue(prefs, [k1, k2], value).Some?
    ensures WebPreferences.At(WebPreferences.SetPathValue(prefs, [k1, k2], value).value, ["toSearch", k1, k2]) == Some(value)
  {
    var path := ["toSearch", k1, k2];
    assert ["toSearch"] + [k1, k2] == path;
    assert WebPreferences.KeysNonEmpty(path) by {
      forall j | 0 <= j < |path|
        ensures path[j] != ""
      {
        assert path[j] in {"toSearch", k1, k2};
      }
    }
    WebPreferences.DeepSetAt(path, value, prefs, false);
  }

  /** The button flips the collection's inclusion flag. */
  lemma {:induction false} ToggleSourceFlips(prefs: WebPreferences.JsValue, bookronym: string, includeSource: bool)
    requires bookronym != "" && ToggleSource(prefs, bookronym, includeSource).Some?
    ensures WebPreferences.At(ToggleSource(prefs, bookronym, includeSource).value, ["toSearch", "includeSource", bookronym]) ==
      Some(WebPreferences.Bool(!includeSource))
  {
    SetPathValueAt(prefs, "includeSource", bookronym, WebPreferences.Bool(!includeSource));
  }

  /** The checkbox stores its new state under the book's name. */
  lemma {:induction false} CheckBookStores(prefs: WebPreferences.JsValue, bookronym: string, x: string, checked: bool)
    requires bookronym != "" && x != "" && CheckBook(prefs, bookronym, x, checked).Some?
    ensures WebPreferences.At(CheckBook(prefs, bookronym, x, checked).value, ["toSearch", bookronym, x]) ==
      Some(WebPreferences.Bool(checked))
  {
    SetPathValueAt(prefs, bookronym, x, WebPreferences.Bool(checked));
  }
}
