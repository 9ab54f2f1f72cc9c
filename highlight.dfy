/**
 * Rendering one search hit (client/src/lib.rs extract_highlights,
 * highlight_matches, format_verse): the packed occurrence pair stored for a
 * verse is decoded into (offset, length) spans, the spans are sorted, and
 * each span of the verse text is wrapped in a match tag, working from the
 * last span to the first so that earlier offsets stay valid.
 *
 * Offsets count characters; the source slices UTF-8 bytes and panics on an
 * out-of-range slice, which here gives None.
 */
module Highlight {
  import opened Base
  import opened Scripture
  import opened Codec
  import VerseLookup

  const OPEN_TAG: string := "<span class=\"match\">"
  const CLOSE_TAG: string := "</span>"

  // ---------------------------------------------------------------------------
  // extract_highlights
  // ---------------------------------------------------------------------------

  /** extract_highlights: the i-th unpacked offset paired with the i-th
      unpacked length, as many pairs as the shorter list has; None where
      unpacking the offsets panics. */
  function ExtractHighlights(packedStarts: nat, packedLengths: nat): (r: Option<seq<Span>>)
    ensures r.Some? <==> UnpackedIndices(packedStarts).Some?
    ensures r.Some? ==>
      var starts, lengths := UnpackedIndices(packedStarts).value, Digits(packedLengths, LENGTH_BASE);
      |r.value| == (if |starts| <= |lengths| then |starts| else |lengths|) &&
      forall i :: 0 <= i < |r.value| ==> r.value[i] == (starts[i], lengths[i])
  {
    match UnpackedIndices(packedStarts)
    case None => None
    case Some(starts) =>
      var lengths := Digits(packedLengths, LENGTH_BASE);
      var n := if |starts| <= |lengths| then |starts| else |lengths|;
      Some(seq(n, i requires 0 <= i < n => (starts[i], lengths[i])))
  }

  /** The offsets and the lengths of a span list, packed as the bundler does. */
  function EncodeSpans(spans: seq<Span>): (packed: (nat, nat))
  {
    (PackedIndices(seq(|spans|, i requires 0 <= i < |spans| => spans[i].0)),
     PackedLengths(seq(|spans|, i requires 0 <= i < |spans| => spans[i].1)))
  }

  /** Decoding gives back what was encoded, for up to 23 spans whose offsets
      fit 11 bits once biased and whose lengths are 1 to 31. */
  lemma {:induction false} ExtractEncoded(spans: seq<Span>)
    requires |spans| <= 23
    requires forall i :: 0 <= i < |spans| ==> spans[i].0 <= MAX_OFFSET && 1 <= spans[i].1 < LENGTH_BASE
    ensures ExtractHighlights(EncodeSpans(spans).0, EncodeSpans(spans).1) == Some(spans)
  {
    var starts := seq(|spans|, i requires 0 <= i < |spans| => spans[i].0);
    var lengths := seq(|spans|, i requires 0 <= i < |spans| => spans[i].1);
    IndicesRoundTrip(starts);
    LengthsRoundTrip(lengths);
    var r := ExtractHighlights(EncodeSpans(spans).0, EncodeSpans(spans).1);
    assert r.value == spans;
  }

  /** A span list whose first length is 0 does not survive: the zero length
      is absorbed by the packer and every later length moves up one slot. */
  lemma {:induction false} ExtractLosesLeadingZeroLength(spans: seq<Span>)
    requires 1 <= |spans| <= 23
    requires forall i :: 0 <= i < |spans| ==> spans[i].0 <= MAX_OFFSET && spans[i].1 < LENGTH_BASE
    requires spans[0].1 == 0
    ensures ExtractHighlights(EncodeSpans(spans).0, EncodeSpans(spans).1) != Some(spans)
  {
    var starts := seq(|spans|, i requires 0 <= i < |spans| => spans[i].0);
    var lengths := seq(|spans|, i requires 0 <= i < |spans| => spans[i].1);
    LengthsRoundTrip(lengths);
    PackedLengthsDigitsBound(lengths);
    IndicesRoundTrip(starts);
    var ds := Digits(EncodeSpans(spans).1, LENGTH_BASE);
    var r := ExtractHighlights(EncodeSpans(spans).0, EncodeSpans(spans).1);
    if |ds| == |lengths| {
      var k :| 0 <= k < |ds| && ds[k] != lengths[k];
      assert r.value[k].1 != spans[k].1;
    } else {
      assert |r.value| < |spans|;
    }
  }

  /** Packing n lengths leaves at most n digits. */
  lemma {:induction false} PackedLengthsDigitsBound(lengths: seq<nat>)
    requires |lengths| <= 25 && forall i :: 0 <= i < |lengths| ==> lengths[i] < LENGTH_BASE
    ensures |Digits(PackedLengths(lengths), LENGTH_BASE)| <= |lengths|
  {
    if lengths != [] && lengths[0] != 0 {
      LengthsRoundTrip(lengths);
    } else if lengths != [] {
      LeadingZeroLengthLost(lengths[1..]);
      assert [0] + lengths[1..] == lengths;
      PackedLengthsDigitsBound(lengths[1..]);
    }
  }

  // ---------------------------------------------------------------------------
  // highlight_matches
  // ---------------------------------------------------------------------------

  function Wrap(word: string): string
  {
    OPEN_TAG + word + CLOSE_TAG
  }

  /** One fold step: wrap text[from .. from + len] in the match tag; None when
      the span runs past the end of the text. */
  function Splice(text: string, h: Span): (r: Option<string>)
    ensures r.Some? <==> h.0 + h.1 <= |text|
    ensures r.Some? ==> |r.value| == |text| + |OPEN_TAG| + |CLOSE_TAG|
  {
    if h.0 + h.1 <= |text| then Some(text[..h.0] + Wrap(text[h.0..h.0 + h.1]) + text[h.0 + h.1..]) else None
  }

  /** The reverse fold of highlight_matches: the last span is spliced first. */
  function Highlighted(text: string, highlights: seq<Span>): Option<string>
    decreases |highlights|
  {
    if highlights == [] then Some(text)
    else
      var n := |highlights| - 1;
      match Splice(text, highlights[n])
      case None => None
      case Some(t) => Highlighted(t, highlights[..n])
  }

  method HighlightMatches(text: string, highlights: seq<Span>) returns (r: Option<string>)
    ensures r == Highlighted(text, highlights)
  {
    var acc := text;
    var k := |highlights|;
    assert highlights[..k] == highlights;
    while k > 0
      invariant 0 <= k <= |highlights|
      invariant Highlighted(text, highlights) == Highlighted(acc, highlights[..k])
    {
      assert highlights[..k][..k - 1] == highlights[..k - 1];
      var (from, len) := highlights[k - 1];
      var to := from + len;
      if to > |acc| {
        return None;
      }
      var word := acc[from..to];
      var replacement := OPEN_TAG + word + CLOSE_TAG;
      assert Splice(acc, highlights[k - 1]) == Some(acc[..from] + replacement + acc[to..]);
      acc := acc[..from] + replacement + acc[to..];
      k := k - 1;
    }
    assert highlights[..0] == [];
    return Some(acc);
  }

  /** Every span ends within the first `n` characters. */
  ghost predicate SpansWithin(highlights: seq<Span>, n: nat)
  {
    forall i :: 0 <= i < |highlights| ==> highlights[i].0 + highlights[i].1 <= n
  }

  /** Each span ends no later than the next one starts. */
  ghost predicate Ascending(highlights: seq<Span>)
  {
    forall i, j :: 0 <= i < j < |highlights| ==> highlights[i].0 + highlights[i].1 <= highlights[j].0
  }

  /** The text with each span wrapped in the match tag and every other
      character kept, for ascending spans inside the text: what is before the
      last span rendered the same way, then the wrapped span, then the rest. */
  function Render(text: string, highlights: seq<Span>): (r: string)
    requires Ascending(highlights) && SpansWithin(highlights, |text|)
    ensures |r| == |text| + |highlights| * (|OPEN_TAG| + |CLOSE_TAG|)
    decreases |highlights|
  {
    if highlights == [] then text
    else
      var n := |highlights| - 1;
      var h := highlights[n];
      Render(text[..h.0], highlights[..n]) + Wrap(text[h.0..h.0 + h.1]) + text[h.0 + h.1..]
  }

  /** Splicing spans that lie in a prefix of the text leaves the rest of the
      text as it was, and never fails. */
  lemma {:induction false} HighlightedPrefix(p: string, s: string, highlights: seq<Span>)
    requires SpansWithin(highlights, |p|)
    ensures Highlighted(p, highlights).Some?
    ensures Highlighted(p + s, highlights) == Some(Highlighted(p, highlights).value + s)
    decreases |highlights|
  {
    if highlights != [] {
      var n := |highlights| - 1;
      var h := highlights[n];
      var t := Splice(p, h).value;
      assert (p + s)[..h.0] == p[..h.0];
      assert (p + s)[h.0..h.0 + h.1] == p[h.0..h.0 + h.1];
      assert (p + s)[h.0 + h.1..] == p[h.0 + h.1..] + s;
      var w := Wrap(p[h.0..h.0 + h.1]);
      assert t + s == p[..h.0] + w + (p[h.0 + h.1..] + s);
      assert Splice(p + s, h) == Some(t + s);
      HighlightedPrefix(t, s, highlights[..n]);
    }
  }

  /** The spans before the last of ascending spans ascend and end before
      the last one starts. */
  lemma {:induction false} FrontBeforeLast(highlights: seq<Span>)
    requires Ascending(highlights) && highlights != []
    ensures Ascending(highlights[..|highlights| - 1])
    ensures SpansWithin(highlights[..|highlights| - 1], highlights[|highlights| - 1].0)
  {
  }

  /** highlight_matches on ascending spans inside the text wraps each span
      and changes nothing else. */
  lemma {:induction false} HighlightMatchesRenders(text: string, highlights: seq<Span>)
    requires Ascending(highlights) && SpansWithin(highlights, |text|)
    ensures Highlighted(text, highlights) == Some(Render(text, highlights))
    decreases |highlights|
  {
    if highlights != [] {
      var n := |highlights| - 1;
      var h := highlights[n];
      var front := highlights[..n];
      var before := text[..h.0];
      var wrapped := Wrap(text[h.0..h.0 + h.1]);
      var after := text[h.0 + h.1..];
      AppendAssoc(before, wrapped, after);
      assert Highlighted(text, highlights) == Highlighted(before + (wrapped + after), front);
      FrontBeforeLast(highlights);
      HighlightedPrefix(before, wrapped + after, front);
      HighlightMatchesRenders(before, front);
      AppendAssoc(Render(before, front), wrapped, after);
    }
  }

  // ---------------------------------------------------------------------------
  // format_verse
  // ---------------------------------------------------------------------------

  /** Lexicographic order on (offset, length) pairs, as Rust orders tuples. */
  predicate SpanLe(a: Span, b: Span)
  {
    a.0 < b.0 || (a.0 == b.0 && a.1 <= b.1)
  }

  ghost predicate SortedSpans(s: seq<Span>)
  {
    forall i, j :: 0 <= i < j < |s| ==> SpanLe(s[i], s[j])
  }

  function InsertSpan(x: Span, s: seq<Span>): (r: seq<Span>)
    requires SortedSpans(s)
    ensures SortedSpans(r) && multiset(r) == multiset(s) + multiset{x}
    ensures |r| == |s| + 1
  {
    if s == [] then [x]
    else if SpanLe(x, s[0]) then [x] + s
    else
      var tail := InsertSpan(x, s[1..]);
      assert s == [s[0]] + s[1..];
      assert forall k :: 0 <= k < |tail| ==> SpanLe(s[0], tail[k]) by {
        forall k | 0 <= k < |tail| ensures SpanLe(s[0], tail[k]) {
          assert tail[k] in multiset(tail);
          if tail[k] != x {
            assert tail[k] in multiset(s[1..]);
            var m :| 0 <= m < |s[1..]| && s[1..][m] == tail[k];
            assert s[m + 1] == tail[k];
          }
        }
      }
      [s[0]] + tail
  }

  /** `sort()` on the cloned span list: a sorted permutation of it. */
  function SortSpans(s: seq<Span>): (r: seq<Span>)
    ensures SortedSpans(r) && multiset(r) == multiset(s)
  {
    if s == [] then []
    else
      assert s == [s[0]] + s[1..];
      InsertSpan(s[0], SortSpans(s[1..]))
  }

  /** Sorting a list that is already sorted gives it back. */
  lemma {:induction false} SortSpansSorted(s: seq<Span>)
    requires SortedSpans(s)
    ensures SortSpans(s) == s
  {
    if s != [] {
      SortSpansSorted(s[1..]);
      if |s| > 1 {
        assert SpanLe(s[0], s[1..][0]);
      }
      assert [s[0]] + s[1..] == s;
    }
  }

  /** Ascending spans are already in sort order, so `sort()` leaves them be. */
  lemma {:induction false} AscendingIsSorted(s: seq<Span>)
    requires Ascending(s)
    ensures SortSpans(s) == s
  {
    assert SortedSpans(s);
    SortSpansSorted(s);
  }

  /** format_verse: a list item linking the verse's reference to its page,
      then the verse text highlighted at the sorted spans. None where the
      link or the highlighting panics. */
  function FormatVerse(corpus: Corpus, path: VersePath, verse: Verse, highlights: seq<Span>): Option<string>
  {
    match VerseLookup.MakeLink(corpus, path)
    case None => None
    case Some(link) =>
      match Highlighted(verse.text, SortSpans(highlights))
      case None => None
      case Some(highlighted) =>
        Some("<li><a target=\"_blank\" rel=\"noopener noreferrer\" href=\"" + link + "\">" +
          verse.reference + "</a>: " + highlighted + "</li>")
  }

  /** When the sorted spans are ascending and inside the text, the line holds
      the link, the reference and the rendered text. */
  lemma {:induction false} FormatVerseRenders(corpus: Corpus, path: VersePath, verse: Verse, highlights: seq<Span>)
    requires VerseLookup.MakeLink(corpus, path).Some?
    requires Ascending(SortSpans(highlights)) && SpansWithin(SortSpans(highlights), |verse.text|)
    ensures FormatVerse(corpus, path, verse, highlights) ==
      Some("<li><a target=\"_blank\" rel=\"noopener noreferrer\" href=\"" + VerseLookup.MakeLink(corpus, path).value + "\">" +
        verse.reference + "</a>: " + Render(verse.text, SortSpans(highlights)) + "</li>")
  {
    HighlightMatchesRenders(verse.text, SortSpans(highlights));
  }
}
