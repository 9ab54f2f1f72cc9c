/**
 * The query engine's search (client/src/lib.rs full_match_search): the
 * query's stems that have a bucket in the words table are looked up; the
 * verses found under any of them and admitted by the preferences are
 * narrowed to those found under every one of them; the occurrences of all
 * the stems are merged per verse; and one rendered line per verse is
 * returned, in scripture-id order.
 *
 * The generated words and paths tables are finite maps. Hash-map iteration
 * orders are parameters: `terms` is the order in which the found stems are
 * visited and `pathOrder` the order in which the paths table is inverted.
 * `filter` chooses the D&C test: the one as written or the corrected one.
 */
module Search {
  import opened Base
  import opened Text
  import opened Tokenizer
  import opened Scripture
  import opened Codec
  import opened Preferences
  import opened VerseLookup
  import opened Highlight

  /** stem -> scripture id -> the packed (offsets, lengths) of its occurrences. */
  type PackedWordsIndex = map<string, map<nat, (nat, nat)>>

  // ---------------------------------------------------------------------------
  // What the tables must satisfy for the search not to panic
  // ---------------------------------------------------------------------------

  /** Every path leads to a verse of the corpus; every id filed under a stem
      has a path, and its packed occurrences decode to spans inside that
      verse's text. */
  ghost predicate Servable(corpus: Corpus, words: PackedWordsIndex, paths: PathsIndex)
  {
    (forall id | id in paths :: VerseResolves(corpus, paths, id)) &&
    forall t, id | t in words && id in words[t] :: EntryServable(corpus, words, paths, t, id)
  }

  ghost predicate VerseResolves(corpus: Corpus, paths: PathsIndex, id: nat)
  {
    id in paths && ResolveVersePath(corpus, paths[id]).Some?
  }

  ghost predicate EntryServable(corpus: Corpus, words: PackedWordsIndex, paths: PathsIndex, t: string, id: nat)
    requires t in words && id in words[t]
  {
    VerseResolves(corpus, paths, id) &&
    ExtractHighlights(words[t][id].0, words[t][id].1).Some? &&
    SpansWithin(ExtractHighlights(words[t][id].0, words[t][id].1).value, |ResolveVersePath(corpus, paths[id]).value.text|)
  }

  /** `terms` lists the elements of `s`, each once. */
  ghost predicate IsEnumeration(terms: seq<string>, s: set<string>)
  {
    (forall t :: t in terms <==> t in s) &&
    forall i, j :: 0 <= i < j < |terms| ==> terms[i] != terms[j]
  }

  ghost predicate TermsPresent(words: PackedWordsIndex, terms: seq<string>)
  {
    forall i :: 0 <= i < |terms| ==> terms[i] in words
  }

  // ---------------------------------------------------------------------------
  // The sets of matching ids
  // ---------------------------------------------------------------------------

  /** possible_matches: the query's stems that have a bucket. */
  function PresentTerms(words: PackedWordsIndex, stems: set<string>): (r: set<string>)
    ensures forall t :: t in r <==> t in stems && t in words
  {
    set t | t in stems && t in words
  }

  /** The union of the buckets' ids. */
  function OrIds(words: PackedWordsIndex, terms: seq<string>): set<nat>
    requires TermsPresent(words, terms)
  {
    if terms == [] then {}
    else OrIds(words, terms[..|terms| - 1]) + words[terms[|terms| - 1]].Keys
  }

  /** or_matches: the ids of the union that the preferences admit. */
  function OrMatches(corpus: Corpus, p: SearchPreferences, filter: DcFilter, words: PackedWordsIndex, paths: PathsIndex, terms: seq<string>): set<nat>
    requires TermsPresent(words, terms)
  {
    set id | id in OrIds(words, terms) && id in paths && Searchable(filter, corpus, p, paths[id]) == Some(true)
  }

  /** and_matches: `acc` intersected with each bucket's ids in turn. */
  function AndMatches(acc: set<nat>, words: PackedWordsIndex, terms: seq<string>): set<nat>
    requires TermsPresent(words, terms)
  {
    if terms == [] then acc
    else AndMatches(acc, words, terms[..|terms| - 1]) * words[terms[|terms| - 1]].Keys
  }

  function MatchedIds(corpus: Corpus, p: SearchPreferences, filter: DcFilter, words: PackedWordsIndex, paths: PathsIndex, terms: seq<string>): set<nat>
    requires TermsPresent(words, terms)
  {
    AndMatches(OrMatches(corpus, p, filter, words, paths, terms), words, terms)
  }

  lemma {:induction false} OrIdsExact(words: PackedWordsIndex, terms: seq<string>)
    requires TermsPresent(words, terms)
    ensures forall id :: id in OrIds(words, terms) <==> exists i :: 0 <= i < |terms| && id in words[terms[i]]
  {
    if terms != [] {
      var front := terms[..|terms| - 1];
      OrIdsExact(words, front);
      assert forall i :: 0 <= i < |front| ==> front[i] == terms[i];
    }
  }

  lemma {:induction false} AndMatchesExact(acc: set<nat>, words: PackedWordsIndex, terms: seq<string>)
    requires TermsPresent(words, terms)
    ensures forall id :: id in AndMatches(acc, words, terms) <==> id in acc && forall i :: 0 <= i < |terms| ==> id in words[terms[i]]
  {
    if terms != [] {
      var front := terms[..|terms| - 1];
      AndMatchesExact(acc, words, front);
      assert forall i :: 0 <= i < |front| ==> front[i] == terms[i];
    }
  }

  /** A verse matches exactly when some stem was found, every found stem's
      bucket holds the verse, and the preferences admit it: stems without a
      bucket impose nothing. */
  lemma {:induction false} MatchedIdsExact(corpus: Corpus, p: SearchPreferences, filter: DcFilter, words: PackedWordsIndex, paths: PathsIndex, terms: seq<string>, id: nat)
    requires TermsPresent(words, terms)
    ensures id in MatchedIds(corpus, p, filter, words, paths, terms) <==>
      terms != [] && (forall i :: 0 <= i < |terms| ==> id in words[terms[i]]) &&
      id in paths && Searchable(filter, corpus, p, paths[id]) == Some(true)
  {
    OrIdsExact(words, terms);
    AndMatchesExact(OrMatches(corpus, p, filter, words, paths, terms), words, terms);
    if terms != [] && forall i :: 0 <= i < |terms| ==> id in words[terms[i]] {
      assert id in words[terms[0]];
    }
  }

  /** With the D&C range at its default 1 - 138, a verse of section 1 that
      every found stem names is matched under the corrected D&C test and
      never under the test as written. */
  lemma {:induction false} DcSectionOneUnmatched(corpus: Corpus, p: SearchPreferences, words: PackedWordsIndex, paths: PathsIndex,
                                                 terms: seq<string>, id: nat, v: nat)
    requires TermsPresent(words, terms) && terms != []
    requires forall i :: 0 <= i < |terms| ==> id in words[terms[i]]
    requires id in paths && paths[id] == PathDC(0, v)
    requires p.includedSources.dc && p.includedBooks.dc == (1, 138)
    ensures id in MatchedIds(corpus, p, Corrected, words, paths, terms)
    ensures id !in MatchedIds(corpus, p, AsWritten, words, paths, terms)
  {
    MatchedIdsExact(corpus, p, Corrected, words, paths, terms, id);
    MatchedIdsExact(corpus, p, AsWritten, words, paths, terms, id);
  }

  /** The matched ids depend on which stems were found, not on the order
      they are visited in. */
  lemma {:induction false} MatchedIdsOrderFree(corpus: Corpus, p: SearchPreferences, filter: DcFilter, words: PackedWordsIndex, paths: PathsIndex, terms: seq<string>, others: seq<string>)
    requires TermsPresent(words, terms) && TermsPresent(words, others)
    requires forall t :: t in terms <==> t in others
    ensures MatchedIds(corpus, p, filter, words, paths, terms) == MatchedIds(corpus, p, filter, words, paths, others)
  {
    forall id ensures id in MatchedIds(corpus, p, filter, words, paths, terms) <==> id in MatchedIds(corpus, p, filter, words, paths, others) {
      MatchedIdsExact(corpus, p, filter, words, paths, terms, id);
      MatchedIdsExact(corpus, p, filter, words, paths, others, id);
      if terms != [] && forall i :: 0 <= i < |terms| ==> id in words[terms[i]] {
        forall j | 0 <= j < |others| ensures id in words[others[j]] {
          assert others[j] in others;
          var i :| 0 <= i < |terms| && terms[i] == others[j];
        }
        assert terms[0] in others;
      }
      if others != [] && forall j :: 0 <= j < |others| ==> id in words[others[j]] {
        forall i | 0 <= i < |terms| ensures id in words[terms[i]] {
          assert terms[i] in terms;
          var j :| 0 <= j < |others| && others[j] == terms[i];
        }
        assert others[0] in terms;
      }
    }
  }

  /** A query stem that has no bucket changes nothing: the verses matched
      with it are those matched without it. */
  lemma {:induction false} AbsentStemIgnored(corpus: Corpus, p: SearchPreferences, filter: DcFilter, words: PackedWordsIndex, paths: PathsIndex,
                          stems: set<string>, s: string, terms: seq<string>, more: seq<string>)
    requires s !in words
    requires IsEnumeration(terms, PresentTerms(words, stems)) && IsEnumeration(more, PresentTerms(words, stems + {s}))
    ensures TermsPresent(words, terms) && TermsPresent(words, more)
    ensures MatchedIds(corpus, p, filter, words, paths, terms) == MatchedIds(corpus, p, filter, words, paths, more)
  {
    assert TermsPresent(words, terms) by {
      forall i | 0 <= i < |terms| ensures terms[i] in words {
        assert terms[i] in terms;
      }
    }
    assert TermsPresent(words, more) by {
      forall i | 0 <= i < |more| ensures more[i] in words {
        assert more[i] in more;
      }
    }
    MatchedIdsOrderFree(corpus, p, filter, words, paths, terms, more);
  }

  // ---------------------------------------------------------------------------
  // Merged occurrences and the rendered lines
  // ---------------------------------------------------------------------------

  /** The spans stored for verse `id` under the stems of `terms`, in visiting
      order, appended one stem after another. */
  function Merged(words: PackedWordsIndex, terms: seq<string>, id: nat): seq<Span>
    requires TermsPresent(words, terms)
  {
    if terms == [] then []
    else
      var last := words[terms[|terms| - 1]];
      Merged(words, terms[..|terms| - 1], id) +
        (if id in last then
          match ExtractHighlights(last[id].0, last[id].1)
          case None => []
          case Some(spans) => spans
        else [])
  }

  /** The spans merged for a verse all lie inside its text. */
  lemma {:induction false} MergedWithin(corpus: Corpus, words: PackedWordsIndex, paths: PathsIndex, terms: seq<string>, id: nat)
    requires Servable(corpus, words, paths) && TermsPresent(words, terms)
    requires id in paths
    ensures SpansWithin(Merged(words, terms, id), |ResolveVersePath(corpus, paths[id]).value.text|)
  {
    if terms != [] {
      MergedWithin(corpus, words, paths, terms[..|terms| - 1], id);
    }
  }

  lemma {:induction false} SpansWithinPermuted(a: seq<Span>, b: seq<Span>, n: nat)
    requires SpansWithin(a, n) && multiset(a) == multiset(b)
    ensures SpansWithin(b, n)
  {
    forall i | 0 <= i < |b| ensures b[i].0 + b[i].1 <= n {
      assert b[i] in multiset(a);
      var j :| 0 <= j < |a| && a[j] == b[i];
    }
  }

  /** Under a servable index every verse of the paths table renders. */
  lemma {:induction false} LineDefined(corpus: Corpus, words: PackedWordsIndex, paths: PathsIndex, terms: seq<string>, id: nat)
    requires Servable(corpus, words, paths) && TermsPresent(words, terms) && id in paths
    ensures FormatVerse(corpus, paths[id], ResolveVersePath(corpus, paths[id]).value, Merged(words, terms, id)).Some?
  {
    var text := ResolveVersePath(corpus, paths[id]).value.text;
    var sorted := SortSpans(Merged(words, terms, id));
    MergedWithin(corpus, words, paths, terms, id);
    SpansWithinPermuted(Merged(words, terms, id), sorted, |text|);
    HighlightedPrefix(text, [], sorted);
    assert text + [] == text;
    assert MakeLink(corpus, paths[id]).Some?;
  }

  /** The line rendered for verse `id`. */
  function Line(corpus: Corpus, words: PackedWordsIndex, paths: PathsIndex, terms: seq<string>, id: nat): string
    requires Servable(corpus, words, paths) && TermsPresent(words, terms) && id in paths
  {
    LineDefined(corpus, words, paths, terms, id);
    FormatVerse(corpus, paths[id], ResolveVersePath(corpus, paths[id]).value, Merged(words, terms, id)).value
  }

  /** `ids` lists the elements of `s` in strictly increasing order. */
  ghost predicate InOrder(ids: seq<nat>, s: set<nat>)
  {
    (forall i, j :: 0 <= i < j < |ids| ==> ids[i] < ids[j]) &&
    forall id :: id in ids <==> id in s
  }

  /** Every nonempty set of ids has a least element. */
  lemma {:induction false} HasLeast(s: set<nat>) returns (m: nat)
    requires s != {}
    ensures m in s && forall x | x in s :: m <= x
    decreases |s|
  {
    var x :| x in s;
    if s == {x} {
      m := x;
    } else {
      var y := HasLeast(s - {x});
      assert forall z | z in s :: z == x || z in s - {x};
      m := if x <= y then x else y;
    }
  }

  /** Every finite set of ids can be listed in increasing order. */
  lemma {:induction false} InOrderExists(s: set<nat>) returns (ids: seq<nat>)
    ensures InOrder(ids, s) && |ids| == |s|
    decreases |s|
  {
    if s == {} {
      ids := [];
    } else {
      var m := HasLeast(s);
      var rest := InOrderExists(s - {m});
      ids := [m] + rest;
      forall i, j | 0 <= i < j < |ids| ensures ids[i] < ids[j] {
        if i == 0 {
          assert ids[j] == rest[j - 1] && rest[j - 1] in s - {m};
        }
      }
      forall id ensures id in ids <==> id in s {
        assert id in ids <==> id == m || id in rest;
      }
    }
  }

  lemma {:induction false} InOrderListing(s: set<nat>)
    ensures exists ids :: InOrder(ids, s) && |ids| == |s|
  {
    var ids := InOrderExists(s);
  }

  /** Dropping the first id of an increasing listing lists the rest of the set. */
  lemma {:induction false} InOrderTail(a: seq<nat>, s: set<nat>)
    requires InOrder(a, s) && a != []
    ensures InOrder(a[1..], s - {a[0]})
  {
    forall id ensures id in a[1..] <==> id in s - {a[0]} {
      assert id in a <==> id == a[0] || id in a[1..];
      if id in a[1..] {
        var i :| 0 <= i < |a[1..]| && a[1..][i] == id;
        assert a[i + 1] == id;
      }
    }
  }

  /** Two increasing listings of one set start with the same id. */
  lemma {:induction false} InOrderHead(a: seq<nat>, b: seq<nat>, s: set<nat>)
    requires InOrder(a, s) && InOrder(b, s) && a != [] && b != []
    ensures a[0] == b[0]
  {
    assert a[0] in b && b[0] in a;
    var i :| 0 <= i < |b| && b[i] == a[0];
    var j :| 0 <= j < |a| && a[j] == b[0];
  }

  /** The increasing listing of a set is unique. */
  lemma {:induction false} InOrderUnique(a: seq<nat>, b: seq<nat>, s: set<nat>)
    requires InOrder(a, s) && InOrder(b, s)
    ensures a == b
    decreases |s|
  {
    assert a != [] ==> a[0] in s;
    assert b != [] ==> b[0] in s;
    if a != [] && b != [] {
      InOrderHead(a, b, s);
      InOrderTail(a, s);
      InOrderTail(b, s);
      InOrderUnique(a[1..], b[1..], s - {a[0]});
      assert a == [a[0]] + a[1..] && b == [b[0]] + b[1..];
    }
  }

  /** The ids of `s` in increasing order. */
  ghost function Ascending(s: set<nat>): (ids: seq<nat>)
    ensures InOrder(ids, s) && |ids| == |s|
  {
    InOrderListing(s);
    var ids :| InOrder(ids, s) && |ids| == |s|;
    ids
  }

  /** The matched ids all have paths. */
  lemma {:induction false} MatchedHavePaths(corpus: Corpus, p: SearchPreferences, filter: DcFilter, words: PackedWordsIndex, paths: PathsIndex, terms: seq<string>)
    requires TermsPresent(words, terms)
    ensures MatchedIds(corpus, p, filter, words, paths, terms) <= paths.Keys
  {
    forall id | id in MatchedIds(corpus, p, filter, words, paths, terms) ensures id in paths {
      MatchedIdsExact(corpus, p, filter, words, paths, terms, id);
    }
  }

  /** What a search returns: nothing when the guard refuses the query, and
      otherwise the line of each matched verse, in increasing id order. */
  ghost function SearchLines(corpus: Corpus, p: SearchPreferences, filter: DcFilter, words: PackedWordsIndex, paths: PathsIndex,
                             raw: string, terms: seq<string>): seq<string>
    requires Servable(corpus, words, paths) && TermsPresent(words, terms)
  {
    if !CheckCanSearch(raw, p) then []
    else
      MatchedHavePaths(corpus, p, filter, words, paths, terms);
      var ids := Ascending(MatchedIds(corpus, p, filter, words, paths, terms));
      LinesOf(corpus, words, paths, terms, ids)
  }

  /** The lines of the verses `ids`, in that order. */
  ghost function LinesOf(corpus: Corpus, words: PackedWordsIndex, paths: PathsIndex, terms: seq<string>, ids: seq<nat>): (lines: seq<string>)
    requires Servable(corpus, words, paths) && TermsPresent(words, terms)
    requires forall i :: 0 <= i < |ids| ==> ids[i] in paths
  {
    seq(|ids|, i requires 0 <= i < |ids| => Line(corpus, words, paths, terms, ids[i]))
  }

  /** A search that runs returns one line per matched verse: whatever
      listing `ids` of the matched verses in increasing order one takes, the
      i-th line is the line of `ids[i]` (the order is fully determined,
      because no two verses share an id). */
  lemma {:induction false} SearchLinesShape(corpus: Corpus, p: SearchPreferences, filter: DcFilter, words: PackedWordsIndex, paths: PathsIndex,
                         raw: string, terms: seq<string>, ids: seq<nat>)
    requires Servable(corpus, words, paths) && TermsPresent(words, terms)
    requires CheckCanSearch(raw, p)
    requires InOrder(ids, MatchedIds(corpus, p, filter, words, paths, terms))
    ensures |SearchLines(corpus, p, filter, words, paths, raw, terms)| == |ids| == |MatchedIds(corpus, p, filter, words, paths, terms)|
    ensures forall i :: 0 <= i < |ids| ==>
      ids[i] in paths && SearchLines(corpus, p, filter, words, paths, raw, terms)[i] == Line(corpus, words, paths, terms, ids[i])
  {
    var matched := MatchedIds(corpus, p, filter, words, paths, terms);
    MatchedHavePaths(corpus, p, filter, words, paths, terms);
    InOrderUnique(ids, Ascending(matched), matched);
  }

  /** The `and`, `caseSensitive` and `exact` flags are never read: two
      preferences that agree on sources and books give the same results. */
  lemma {:induction false} FlagsIgnored(corpus: Corpus, p: SearchPreferences, q: SearchPreferences, filter: DcFilter, words: PackedWordsIndex, paths: PathsIndex,
                     raw: string, terms: seq<string>)
    requires Servable(corpus, words, paths) && TermsPresent(words, terms)
    requires p.includedSources == q.includedSources && p.includedBooks == q.includedBooks
    ensures SearchLines(corpus, p, filter, words, paths, raw, terms) == SearchLines(corpus, q, filter, words, paths, raw, terms)
  {
    assert CheckCanSearch(raw, p) == CheckCanSearch(raw, q);
    forall id ensures id in MatchedIds(corpus, p, filter, words, paths, terms) <==> id in MatchedIds(corpus, q, filter, words, paths, terms) {
      MatchedIdsExact(corpus, p, filter, words, paths, terms, id);
      MatchedIdsExact(corpus, q, filter, words, paths, terms, id);
    }
    assert MatchedIds(corpus, p, filter, words, paths, terms) == MatchedIds(corpus, q, filter, words, paths, terms);
  }

  // ---------------------------------------------------------------------------
  // full_match_search
  // ---------------------------------------------------------------------------

  /** The least element of a nonempty set, by a scan. */
  method LeastOf(s: set<nat>) returns (m: nat)
    requires s != {}
    ensures m in s && forall x | x in s :: m <= x
  {
    m :| m in s;
    var rest := s - {m};
    while rest != {}
      invariant rest <= s && m in s
      invariant forall x | x in s && x !in rest :: m <= x
      decreases |rest|
    {
      var x :| x in rest;
      if x < m {
        m := x;
      }
      rest := rest - {x};
    }
  }

  /** The union of the found stems' buckets, bucket by bucket. */
  method CollectOrIds(words: PackedWordsIndex, possible: PackedWordsIndex, terms: seq<string>) returns (orIds: set<nat>)
    requires TermsPresent(words, terms)
    requires forall i :: 0 <= i < |terms| ==> terms[i] in possible && possible[terms[i]] == words[terms[i]]
    ensures orIds == OrIds(words, terms)
  {
    orIds := {};
    for k := 0 to |terms|
      invariant orIds == OrIds(words, terms[..k])
    {
      assert terms[..k + 1][..k] == terms[..k];
      orIds := orIds + possible[terms[k]].Keys;
    }
    assert terms[..|terms|] == terms;
  }

  /** and_matches: the admitted ids narrowed by every found stem's bucket. */
  method IntersectBuckets(orMatches: set<nat>, words: PackedWordsIndex, possible: PackedWordsIndex, terms: seq<string>)
    returns (andMatches: set<nat>)
    requires TermsPresent(words, terms)
    requires forall i :: 0 <= i < |terms| ==> terms[i] in possible && possible[terms[i]] == words[terms[i]]
    ensures andMatches == AndMatches(orMatches, words, terms)
  {
    andMatches := orMatches;
    for k := 0 to |terms|
      invariant andMatches == AndMatches(orMatches, words, terms[..k])
    {
      assert terms[..k + 1][..k] == terms[..k];
      andMatches := andMatches * possible[terms[k]].Keys;
    }
    assert terms[..|terms|] == terms;
  }

  /** Every verse of `ids` is in the bucket of `t`, and its packed entry
      there decodes. */
  ghost predicate BucketDecodes(words: PackedWordsIndex, t: string, ids: set<nat>)
    requires t in words
  {
    forall id | id in ids :: id in words[t] && ExtractHighlights(words[t][id].0, words[t][id].1).Some?
  }

  lemma {:induction false} ServableBucketsDecode(corpus: Corpus, words: PackedWordsIndex, paths: PathsIndex, terms: seq<string>, ids: set<nat>)
    requires Servable(corpus, words, paths) && TermsPresent(words, terms)
    requires forall id, i | id in ids && 0 <= i < |terms| :: id in words[terms[i]]
    ensures forall i | 0 <= i < |terms| :: BucketDecodes(words, terms[i], ids)
  {
    forall i, id | 0 <= i < |terms| && id in ids ensures id in words[terms[i]] && ExtractHighlights(words[terms[i]][id].0, words[terms[i]][id].1).Some? {
      assert EntryServable(corpus, words, paths, terms[i], id);
    }
  }

  lemma {:induction false} MergedSnoc(words: PackedWordsIndex, terms: seq<string>, k: nat, id: nat)
    requires TermsPresent(words, terms) && k < |terms|
    requires id in words[terms[k]] && ExtractHighlights(words[terms[k]][id].0, words[terms[k]][id].1).Some?
    ensures Merged(words, terms[..k + 1], id) == Merged(words, terms[..k], id) + ExtractHighlights(words[terms[k]][id].0, words[terms[k]][id].1).value
  {
    assert terms[..k + 1][..k] == terms[..k];
  }

  /** The fold that appends each found stem's decoded spans to the entry of
      every matched verse. */
  method MergeHighlights(words: PackedWordsIndex, possible: PackedWordsIndex, terms: seq<string>, andMatches: set<nat>)
    returns (merged: map<nat, seq<Span>>)
    requires TermsPresent(words, terms)
    requires forall i :: 0 <= i < |terms| ==> terms[i] in possible && possible[terms[i]] == words[terms[i]]
    requires forall i | 0 <= i < |terms| :: BucketDecodes(words, terms[i], andMatches)
    requires terms == [] ==> andMatches == {}
    ensures merged.Keys == andMatches
    ensures forall id | id in merged :: merged[id] == Merged(words, terms, id)
  {
    merged := map[];
    for k := 0 to |terms|
      invariant merged.Keys == (if k == 0 then {} else andMatches)
      invariant forall id | id in merged :: merged[id] == Merged(words, terms[..k], id)
    {
      merged := MergeStep(words, possible, terms, k, andMatches, merged);
    }
    assert terms[..|terms|] == terms;
  }

  /** One turn of the fold: the bucket of `terms[k]` appended. */
  method MergeStep(words: PackedWordsIndex, possible: PackedWordsIndex, terms: seq<string>, k: nat,
                   andMatches: set<nat>, merged: map<nat, seq<Span>>) returns (next: map<nat, seq<Span>>)
    requires TermsPresent(words, terms) && k < |terms|
    requires terms[k] in possible && possible[terms[k]] == words[terms[k]]
    requires BucketDecodes(words, terms[k], andMatches)
    requires merged.Keys == (if k == 0 then {} else andMatches)
    requires forall id | id in merged :: merged[id] == Merged(words, terms[..k], id)
    ensures next.Keys == andMatches
    ensures forall id | id in next :: next[id] == Merged(words, terms[..k + 1], id)
  {
    var bucket := possible[terms[k]];
    next := map id | id in andMatches :: (if id in merged then merged[id] else []) + ExtractHighlights(bucket[id].0, bucket[id].1).value;
    forall id | id in next ensures next[id] == Merged(words, terms[..k + 1], id) {
      MergedSnoc(words, terms, k, id);
    }
  }

  /** format_verse on one matched verse and its merged spans. */
  method RenderLine(corpus: Corpus, words: PackedWordsIndex, paths: PathsIndex, terms: seq<string>, id: nat, spans: seq<Span>)
    returns (line: string)
    requires Servable(corpus, words, paths) && TermsPresent(words, terms) && id in paths
    requires spans == Merged(words, terms, id)
    ensures line == Line(corpus, words, paths, terms, id)
  {
    LineDefined(corpus, words, paths, terms, id);
    var verse := ResolveVersePath(corpus, paths[id]).value;
    line := FormatVerse(corpus, paths[id], verse, spans).value;
  }

  /** When the ids still to render are those of `ids[k..]`, the least of
      them is `ids[k]`. */
  lemma {:induction false} NextInOrder(ids: seq<nat>, s: set<nat>, remaining: set<nat>, k: nat, id: nat)
    requires InOrder(ids, s) && k <= |ids|
    requires forall x :: x in remaining <==> x in ids[k..]
    requires id in remaining && forall x | x in remaining :: id <= x
    ensures k < |ids| && ids[k] == id
    ensures forall x :: x in remaining - {id} <==> x in ids[k + 1..]
  {
    var i :| 0 <= i < |ids[k..]| && ids[k..][i] == id;
    assert ids[k] in remaining;
    assert ids[k + i] == id;
    forall x ensures x in remaining - {id} <==> x in ids[k + 1..] {
      if x in ids[k + 1..] {
        var j :| 0 <= j < |ids[k + 1..]| && ids[k + 1..][j] == x;
        assert ids[k + 1 + j] == x && x in ids[k..];
      }
      if x in remaining - {id} {
        var j :| 0 <= j < |ids[k..]| && ids[k..][j] == x;
        assert ids[k + j] == x && j != 0;
        assert x == ids[k + 1..][j - 1];
      }
    }
  }

  /** One rendered line per matched verse, in increasing order of its sort
      key, the id the inverted paths table gives its path (the verse's own
      id, since no two ids share a path). */
  method RenderLines(corpus: Corpus, words: PackedWordsIndex, paths: PathsIndex, versePaths: VersePathsIndex, terms: seq<string>,
                     merged: map<nat, seq<Span>>) returns (lines: seq<string>)
    requires Servable(corpus, words, paths) && TermsPresent(words, terms)
    requires forall k | k in paths :: paths[k] in versePaths && versePaths[paths[k]] == k
    requires merged.Keys <= paths.Keys
    requires forall id | id in merged :: merged[id] == Merged(words, terms, id)
    ensures lines == LinesOf(corpus, words, paths, terms, Ascending(merged.Keys))
  {
    ghost var ids := Ascending(merged.Keys);
    ghost var expected := LinesOf(corpus, words, paths, terms, ids);
    var remaining := merged.Keys;
    lines := [];
    while remaining != {}
      invariant |lines| <= |ids| && |remaining| == |ids| - |lines|
      invariant forall x :: x in remaining <==> x in ids[|lines|..]
      invariant lines == expected[..|lines|]
      decreases |remaining|
    {
      remaining, lines := RenderNext(corpus, words, paths, versePaths, terms, merged, ids, expected, remaining, lines);
    }
  }

  /** One turn of the rendering loop: the least id still to render is looked
      up through the inverted paths table and its line appended. */
  method RenderNext(corpus: Corpus, words: PackedWordsIndex, paths: PathsIndex, versePaths: VersePathsIndex, terms: seq<string>,
                    merged: map<nat, seq<Span>>, ghost ids: seq<nat>, ghost expected: seq<string>,
                    remaining: set<nat>, lines: seq<string>) returns (remaining': set<nat>, lines': seq<string>)
    requires Servable(corpus, words, paths) && TermsPresent(words, terms)
    requires forall k | k in paths :: paths[k] in versePaths && versePaths[paths[k]] == k
    requires merged.Keys <= paths.Keys
    requires forall id | id in merged :: merged[id] == Merged(words, terms, id)
    requires InOrder(ids, merged.Keys) && expected == LinesOf(corpus, words, paths, terms, ids)
    requires |lines| <= |ids| && lines == expected[..|lines|]
    requires remaining != {} && forall x :: x in remaining <==> x in ids[|lines|..]
    ensures |remaining'| == |remaining| - 1 && |lines'| == |lines| + 1
    ensures |lines'| <= |ids| && lines' == expected[..|lines'|]
    ensures forall x :: x in remaining' <==> x in ids[|lines'|..]
  {
    var id := LeastOf(remaining);
    NextInOrder(ids, merged.Keys, remaining, |lines|, id);
    var key := versePaths[paths[id]];
    var line := RenderLine(corpus, words, paths, terms, key, merged[key]);
    PrefixSnoc(expected, |lines|);
    lines' := lines + [line];
    remaining' := remaining - {id};
  }

  method FullMatchSearch(ops: TextOps, corpus: Corpus, words: PackedWordsIndex, paths: PathsIndex, pathOrder: seq<nat>,
                         raw: string, p: SearchPreferences, filter: DcFilter, terms: seq<string>) returns (lines: seq<string>)
    requires Servable(corpus, words, paths) && Injective(paths) && IsIterationOrder(paths, pathOrder)
    requires IsEnumeration(terms, PresentTerms(words, QueryStems(ops, raw)))
    ensures TermsPresent(words, terms)
    ensures lines == SearchLines(corpus, p, filter, words, paths, raw, terms)
  {
    assert TermsPresent(words, terms) by {
      forall i | 0 <= i < |terms| ensures terms[i] in words {
        assert terms[i] in terms;
      }
    }
    if !CheckCanSearch(raw, p) {
      return [];
    }
    var stems := QueryStems(ops, raw);
    var possible := map t | t in stems && t in words :: words[t];
    assert forall i :: 0 <= i < |terms| ==> terms[i] in possible && possible[terms[i]] == words[terms[i]] by {
      forall i | 0 <= i < |terms| ensures terms[i] in possible {
        assert terms[i] in terms;
      }
    }
    var orMatches := CollectOrMatches(corpus, p, filter, words, paths, possible, terms);
    var andMatches := IntersectBuckets(orMatches, words, possible, terms);
    MatchedDecode(corpus, p, filter, words, paths, terms);
    var merged := MergeHighlights(words, possible, terms, andMatches);
    var versePaths := VersePaths(paths, pathOrder);
    MatchedHavePaths(corpus, p, filter, words, paths, terms);
    lines := RenderLines(corpus, words, paths, versePaths, terms, merged);
  }

  /** VERSE_PATHS_INDEX: the paths table inverted, built once. */
  method VersePaths(paths: PathsIndex, pathOrder: seq<nat>) returns (versePaths: VersePathsIndex)
    requires Injective(paths) && IsIterationOrder(paths, pathOrder)
    ensures versePaths == InvertPaths(paths, pathOrder)
    ensures forall k | k in paths :: paths[k] in versePaths && versePaths[paths[k]] == k
  {
    versePaths := InvertPaths(paths, pathOrder);
    InvertPathsInjective(paths, pathOrder);
  }

  /** or_matches: the union of the found buckets, filtered by the preferences. */
  method CollectOrMatches(corpus: Corpus, p: SearchPreferences, filter: DcFilter, words: PackedWordsIndex, paths: PathsIndex,
                          possible: PackedWordsIndex, terms: seq<string>) returns (orMatches: set<nat>)
    requires Servable(corpus, words, paths) && TermsPresent(words, terms)
    requires forall i :: 0 <= i < |terms| ==> terms[i] in possible && possible[terms[i]] == words[terms[i]]
    ensures orMatches == OrMatches(corpus, p, filter, words, paths, terms)
  {
    var orIds := CollectOrIds(words, possible, terms);
    assert forall id | id in orIds :: id in paths by {
      OrIdsExact(words, terms);
      forall id | id in orIds ensures id in paths {
        var i :| 0 <= i < |terms| && id in words[terms[i]];
        assert EntryServable(corpus, words, paths, terms[i], id);
      }
    }
    orMatches := set id | id in orIds && Searchable(filter, corpus, p, paths[id]) == Some(true);
  }

  /** Every matched verse is in every found bucket, and decodes there; with
      no stem found nothing matches. */
  lemma {:induction false} MatchedDecode(corpus: Corpus, p: SearchPreferences, filter: DcFilter, words: PackedWordsIndex, paths: PathsIndex, terms: seq<string>)
    requires Servable(corpus, words, paths) && TermsPresent(words, terms)
    ensures forall i | 0 <= i < |terms| :: BucketDecodes(words, terms[i], MatchedIds(corpus, p, filter, words, paths, terms))
    ensures terms == [] ==> MatchedIds(corpus, p, filter, words, paths, terms) == {}
  {
    var matched := MatchedIds(corpus, p, filter, words, paths, terms);
    forall id, i | id in matched && 0 <= i < |terms| ensures id in words[terms[i]] {
      MatchedIdsExact(corpus, p, filter, words, paths, terms, id);
    }
    ServableBucketsDecode(corpus, words, paths, terms, matched);
  }

}
