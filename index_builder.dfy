/**
 * The index builder of the data bundler (data-bundler/src/lib.rs
 * prepare_book_paths, build_index and its closures count_word_usage and
 * count_verse).
 *
 * The builder walks the corpus in a fixed order (Old Testament, New
 * Testament, Book of Mormon, Doctrine and Covenants, Pearl of Great Price;
 * book, then chapter, then verse within each), hands every verse the next
 * scripture id starting at 1, records where the verse lives in the paths
 * map, and records every word of the verse under its stem in the words map,
 * as (start, length) of the word in the verse's original text.
 */
module IndexBuilder {
  import opened Base
  import opened Text
  import opened Tokenizer
  import opened Scripture

  // ---------------------------------------------------------------------------
  // Traversal order (prepare_book_paths and the D&C flattening)
  // ---------------------------------------------------------------------------

  /** A `u8` cast of a book or section index keeps the low eight bits. */
  function AsU8(n: nat): (r: nat)
    ensures r < 256
    ensures n < 256 ==> r == n
  {
    n % 256
  }

  /** The `u8` chapter coordinate `chapter.chapter - 1` underflows on chapter 0,
      so every chapter must be numbered from 1. */
  ghost predicate ChaptersNumbered(books: seq<Book>)
  {
    forall b :: 0 <= b < |books| ==> ChaptersFromOne(books[b].chapters)
  }

  ghost predicate ChaptersFromOne(chapters: seq<Chapter>)
  {
    forall c :: 0 <= c < |chapters| ==> chapters[c].chapter >= 1
  }

  function VerseCount(chapters: seq<Chapter>): nat
  {
    if chapters == [] then 0 else VerseCount(chapters[..|chapters| - 1]) + |chapters[|chapters| - 1].verses|
  }

  function BooksVerseCount(books: seq<Book>): nat
  {
    if books == [] then 0 else BooksVerseCount(books[..|books| - 1]) + VerseCount(books[|books| - 1].chapters)
  }

  /** The entries of one book: its book coordinate `b`, the chapter
      coordinate and the verse, chapter by chapter and verse by verse. */
  function BookEntries(b: nat, chapters: seq<Chapter>): (r: seq<(nat, nat, Verse)>)
    requires ChaptersFromOne(chapters)
    ensures |r| == VerseCount(chapters)
  {
    if chapters == [] then []
    else
      var n := |chapters| - 1;
      BookEntries(b, chapters[..n]) + ChapterEntries(b, chapters[n])
  }

  function ChapterEntries(b: nat, ch: Chapter): (r: seq<(nat, nat, Verse)>)
    requires ch.chapter >= 1
    ensures |r| == |ch.verses|
    ensures forall v :: 0 <= v < |ch.verses| ==> r[v] == (b, ch.chapter - 1, ch.verses[v])
  {
    var chapterIndex: nat := ch.chapter - 1;
    seq(|ch.verses|, i requires 0 <= i < |ch.verses| => (b, chapterIndex, ch.verses[i]))
  }

  /** prepare_book_paths: every verse of the collection with its book index
      cast to u8 and its chapter coordinate, book-major, then chapter, then
      verse. */
  function PrepareBookPaths(books: seq<Book>): (r: seq<(nat, nat, Verse)>)
    requires ChaptersNumbered(books)
    ensures |r| == BooksVerseCount(books)
  {
    if books == [] then []
    else
      var n := |books| - 1;
      ChaptersNumberedPrefix(books, n);
      PrepareBookPaths(books[..n]) + BookEntries(AsU8(n), books[n].chapters)
  }

  lemma {:induction false} ChaptersNumberedPrefix(books: seq<Book>, n: nat)
    requires ChaptersNumbered(books) && n <= |books|
    ensures ChaptersNumbered(books[..n])
  {
    forall k | 0 <= k < n ensures ChaptersFromOne(books[..n][k].chapters) {
      assert books[..n][k] == books[k];
    }
  }

  lemma {:induction false} BookEntriesAt(b: nat, chapters: seq<Chapter>, c: nat, v: nat)
    requires ChaptersFromOne(chapters)
    requires c < |chapters| && v < |chapters[c].verses|
    ensures VerseCount(chapters[..c]) + v < |BookEntries(b, chapters)|
    ensures BookEntries(b, chapters)[VerseCount(chapters[..c]) + v] ==
      (b, chapters[c].chapter - 1, chapters[c].verses[v])
    decreases |chapters|
  {
    var n := |chapters| - 1;
    var front := chapters[..n];
    var i := VerseCount(chapters[..c]) + v;
    assert BookEntries(b, chapters) == BookEntries(b, front) + ChapterEntries(b, chapters[n]);
    if c < n {
      assert chapters[..c] == front[..c];
      assert front[c] == chapters[c];
      BookEntriesAt(b, front, c, v);
      assert BookEntries(b, chapters)[i] == BookEntries(b, front)[i];
    } else {
      assert chapters[..c] == front;
      assert BookEntries(b, chapters)[i] == ChapterEntries(b, chapters[n])[v];
    }
  }

  lemma {:induction false} VerseCountPrefix(chapters: seq<Chapter>, c: nat)
    requires c <= |chapters|
    ensures VerseCount(chapters[..c]) <= VerseCount(chapters)
    decreases |chapters|
  {
    if c < |chapters| {
      var n := |chapters| - 1;
      assert chapters[..n][..c] == chapters[..c];
      VerseCountPrefix(chapters[..n], c);
    } else {
      assert chapters[..c] == chapters;
    }
  }

  lemma {:induction false} BooksVerseCountPrefix(books: seq<Book>, b: nat)
    requires b <= |books|
    ensures BooksVerseCount(books[..b]) <= BooksVerseCount(books)
    decreases |books|
  {
    if b < |books| {
      var n := |books| - 1;
      assert books[..n][..b] == books[..b];
      BooksVerseCountPrefix(books[..n], b);
    } else {
      assert books[..b] == books;
    }
  }

  /** Verse v of chapter c of book b sits after every verse of the earlier
      books and of the earlier chapters of its own book. */
  lemma {:induction false} PrepareBookPathsAt(books: seq<Book>, b: nat, c: nat, v: nat)
    requires ChaptersNumbered(books)
    requires b < |books| && c < |books[b].chapters| && v < |books[b].chapters[c].verses|
    ensures BooksVerseCount(books[..b]) + VerseCount(books[b].chapters[..c]) + v < |PrepareBookPaths(books)|
    ensures PrepareBookPaths(books)[BooksVerseCount(books[..b]) + VerseCount(books[b].chapters[..c]) + v] ==
      (AsU8(b), books[b].chapters[c].chapter - 1, books[b].chapters[c].verses[v])
    decreases |books|
  {
    var n := |books| - 1;
    var front := books[..n];
    ChaptersNumberedPrefix(books, n);
    assert PrepareBookPaths(books) == PrepareBookPaths(front) + BookEntries(AsU8(n), books[n].chapters);
    if b < n {
      assert books[..b] == front[..b];
      assert front[b] == books[b];
      PrepareBookPathsAt(front, b, c, v);
    } else {
      assert books[..b] == front;
      BookEntriesAt(AsU8(n), books[n].chapters, c, v);
    }
  }

  /** Sections and verses must be numbered from 1 (`- 1` on the numbers). */
  ghost predicate SectionsNumbered(sections: seq<Section>)
  {
    forall s :: 0 <= s < |sections| ==> sections[s].section >= 1
  }

  /** The D&C flattening: every verse with its section coordinate (the
      section number minus one), section by section. */
  function SectionEntries(sections: seq<Section>): seq<(nat, Verse)>
    requires SectionsNumbered(sections)
  {
    if sections == [] then []
    else
      var n := |sections| - 1;
      var sec := sections[n];
      var sectionIndex: nat := sec.section - 1;
      SectionEntries(sections[..n]) + seq(|sec.verses|, i requires 0 <= i < |sec.verses| => (sectionIndex, sec.verses[i]))
  }

  // ---------------------------------------------------------------------------
  // The verse paths, one per verse, in id order
  // ---------------------------------------------------------------------------

  ghost predicate VersesNumbered(entries: seq<(nat, nat, Verse)>)
  {
    forall i :: 0 <= i < |entries| ==> entries[i].2.verse >= 1
  }

  ghost predicate SectionVersesNumbered(entries: seq<(nat, Verse)>)
  {
    forall i :: 0 <= i < |entries| ==> entries[i].1.verse >= 1
  }

  /** Which collection a list of (book, chapter, verse) entries comes from. */
  datatype Collection = OT | NT | BoM | PoGP

  function BookPath(coll: Collection, b: nat, c: nat, v: nat): VersePath
  {
    match coll
    case OT => PathOT(b, c, v)
    case NT => PathNT(b, c, v)
    case BoM => PathBoM(b, c, v)
    case PoGP => PathPOGP(b, c, v)
  }

  /** The (path, verse) pairs of a books collection; the verse coordinate is
      the verse number minus one. */
  function BookPathEntries(coll: Collection, entries: seq<(nat, nat, Verse)>): (r: seq<(VersePath, Verse)>)
    requires VersesNumbered(entries)
    ensures |r| == |entries|
    ensures forall i :: 0 <= i < |entries| ==>
      r[i] == (BookPath(coll, entries[i].0, entries[i].1, entries[i].2.verse - 1), entries[i].2)
  {
    seq(|entries|, i requires 0 <= i < |entries| =>
      (BookPath(coll, entries[i].0, entries[i].1, entries[i].2.verse - 1), entries[i].2))
  }

  /** The (path, verse) pairs of the D&C; the section coordinate is cast to
      u8 when the path is built. */
  function SectionPathEntries(entries: seq<(nat, Verse)>): (r: seq<(VersePath, Verse)>)
    requires SectionVersesNumbered(entries)
    ensures |r| == |entries|
    ensures forall i :: 0 <= i < |entries| ==> r[i] == (PathDC(AsU8(entries[i].0), entries[i].1.verse - 1), entries[i].1)
  {
    seq(|entries|, i requires 0 <= i < |entries| => (PathDC(AsU8(entries[i].0), entries[i].1.verse - 1), entries[i].1))
  }

  /** A corpus the builder can index without an arithmetic fault: chapter,
      section and verse numbers start at 1 and the u16 id counter does not
      overflow. */
  ghost predicate Indexable(corpus: Corpus)
  {
    ChaptersNumbered(corpus.ot.books) && ChaptersNumbered(corpus.nt.books) &&
    ChaptersNumbered(corpus.bom.books) && ChaptersNumbered(corpus.pogp.books) &&
    SectionsNumbered(corpus.dc.sections) &&
    VersesNumbered(PrepareBookPaths(corpus.ot.books)) &&
    VersesNumbered(PrepareBookPaths(corpus.nt.books)) &&
    VersesNumbered(PrepareBookPaths(corpus.bom.books)) &&
    SectionVersesNumbered(SectionEntries(corpus.dc.sections)) &&
    VersesNumbered(PrepareBookPaths(corpus.pogp.books)) &&
    |PrepareBookPaths(corpus.ot.books)| + |PrepareBookPaths(corpus.nt.books)| +
      |PrepareBookPaths(corpus.bom.books)| + |SectionEntries(corpus.dc.sections)| +
      |PrepareBookPaths(corpus.pogp.books)| <= MAX_ID
  }

  function OtEntries(corpus: Corpus): (r: seq<(VersePath, Verse)>)
    requires Indexable(corpus)
    ensures forall i :: 0 <= i < |r| ==> r[i].0.PathOT?
  {
    BookPathEntries(OT, PrepareBookPaths(corpus.ot.books))
  }

  function NtEntries(corpus: Corpus): (r: seq<(VersePath, Verse)>)
    requires Indexable(corpus)
    ensures forall i :: 0 <= i < |r| ==> r[i].0.PathNT?
  {
    BookPathEntries(NT, PrepareBookPaths(corpus.nt.books))
  }

  function BomEntries(corpus: Corpus): (r: seq<(VersePath, Verse)>)
    requires Indexable(corpus)
    ensures forall i :: 0 <= i < |r| ==> r[i].0.PathBoM?
  {
    BookPathEntries(BoM, PrepareBookPaths(corpus.bom.books))
  }

  function DcEntries(corpus: Corpus): (r: seq<(VersePath, Verse)>)
    requires Indexable(corpus)
    ensures forall i :: 0 <= i < |r| ==> r[i].0.PathDC?
  {
    SectionPathEntries(SectionEntries(corpus.dc.sections))
  }

  function PogpEntries(corpus: Corpus): (r: seq<(VersePath, Verse)>)
    requires Indexable(corpus)
    ensures forall i :: 0 <= i < |r| ==> r[i].0.PathPOGP?
  {
    BookPathEntries(PoGP, PrepareBookPaths(corpus.pogp.books))
  }

  /** Every verse of the corpus with its path, in the order ids are handed out. */
  function AllEntries(corpus: Corpus): (r: seq<(VersePath, Verse)>)
    requires Indexable(corpus)
    ensures |r| <= MAX_ID
  {
    OtEntries(corpus) + NtEntries(corpus) + BomEntries(corpus) + DcEntries(corpus) + PogpEntries(corpus)
  }

  // ---------------------------------------------------------------------------
  // count_word_usage and count_verse
  // ---------------------------------------------------------------------------

  /** The key a word is filed under: the stem of the lowercased slice. */
  function StemAt(ops: TextOps, text: string, r: (nat, nat)): string
    requires r.0 <= r.1 <= |text|
  {
    ops.stem(ops.lower(text[r.0..r.1]))
  }

  /** count_word_usage: append (start, length) of the word to the list of
      verse `id` under the word's stem, creating the stem's bucket or the
      verse's list when missing. */
  function CountWordUsage(ops: TextOps, words: WordsIndex, text: string, r: (nat, nat), id: nat): (res: WordsIndex)
    requires r.0 <= r.1 <= |text|
    ensures res.Keys == words.Keys + {StemAt(ops, text, r)}
    ensures NoEmptyEntries(words) ==> NoEmptyEntries(res)
  {
    var stemmed := StemAt(ops, text, r);
    var toInsert: seq<Span> := [(r.0, r.1 - r.0)];
    if stemmed !in words then
      var usage: map<nat, seq<Span>> := map[id := toInsert];
      assert id in usage;
      words[stemmed := usage]
    else
      var usage := words[stemmed];
      var list: seq<Span> := if id in usage then usage[id] + toInsert else toInsert;
      var usage': map<nat, seq<Span>> := usage[id := list];
      words[stemmed := usage']
  }

  /** count_word_usage appends the word's span to exactly one list: the one
      of verse `id` under the word's stem. */
  lemma {:induction false} CountWordUsageLookup(ops: TextOps, words: WordsIndex, text: string, r: (nat, nat), id: nat,
                                                w: string, j: nat)
    requires r.0 <= r.1 <= |text|
    ensures Lookup(CountWordUsage(ops, words, text, r, id), w, j) ==
      Lookup(words, w, j) + (if j == id then OccurrenceAt(ops, text, r, w) else [])
  {
  }

  /** The ranges a verse's words occupy, all inside the text. */
  function VerseRanges(ops: TextOps, text: string): (ranges: seq<(nat, nat)>)
    ensures forall r | r in ranges :: r.0 < r.1 < |text|
    ensures ranges == WordRanges(ops, text)
  {
    WordRangesShape(ops, text);
    WordRanges(ops, text)
  }

  /** The fold of count_word_usage over the given ranges. */
  function FoldRanges(ops: TextOps, words: WordsIndex, text: string, ranges: seq<(nat, nat)>, id: nat): WordsIndex
    requires forall r | r in ranges :: r.0 <= r.1 <= |text|
    decreases |ranges|
  {
    if ranges == [] then words
    else FoldRanges(ops, CountWordUsage(ops, words, text, ranges[0], id), text, ranges[1..], id)
  }

  /** count_verse: file every word of the verse under verse `id`. */
  function CountVerse(ops: TextOps, text: string, words: WordsIndex, id: nat): WordsIndex
  {
    FoldRanges(ops, words, text, VerseRanges(ops, text), id)
  }

  /** The occurrences among `ranges` of words whose stem is `w`, as
      (start, length), in order. */
  function OccurrencesIn(ops: TextOps, text: string, ranges: seq<(nat, nat)>, w: string): seq<Span>
    requires forall r | r in ranges :: r.0 <= r.1 <= |text|
  {
    if ranges == [] then []
    else OccurrenceAt(ops, text, ranges[0], w) + OccurrencesIn(ops, text, ranges[1..], w)
  }

  /** The word at range `r` as (start, length) when its stem is `w`. */
  function OccurrenceAt(ops: TextOps, text: string, r: (nat, nat), w: string): seq<Span>
    requires r.0 <= r.1 <= |text|
  {
    if StemAt(ops, text, r) == w then [(r.0, r.1 - r.0)] else []
  }

  /** The occurrences of stem `w` in a verse text. */
  function Occurrences(ops: TextOps, text: string, w: string): seq<Span>
  {
    OccurrencesIn(ops, text, VerseRanges(ops, text), w)
  }

  lemma {:induction false} FoldRangesLookup(ops: TextOps, words: WordsIndex, text: string, ranges: seq<(nat, nat)>, id: nat)
    requires forall r | r in ranges :: r.0 <= r.1 <= |text|
    ensures forall w: string, j: nat ::
      Lookup(FoldRanges(ops, words, text, ranges, id), w, j) == Lookup(words, w, j) + (if j == id then OccurrencesIn(ops, text, ranges, w) else [])
    ensures NoEmptyEntries(words) ==> NoEmptyEntries(FoldRanges(ops, words, text, ranges, id))
  {
    forall w: string, j: nat ensures Lookup(FoldRanges(ops, words, text, ranges, id), w, j) ==
      Lookup(words, w, j) + (if j == id then OccurrencesIn(ops, text, ranges, w) else [])
    {
      FoldRangesLookupAt(ops, words, text, ranges, id, w, j);
    }
    FoldRangesNoEmpty(ops, words, text, ranges, id);
  }

  lemma {:induction false} FoldRangesLookupAt(ops: TextOps, words: WordsIndex, text: string, ranges: seq<(nat, nat)>, id: nat,
                                              w: string, j: nat)
    requires forall r | r in ranges :: r.0 <= r.1 <= |text|
    ensures Lookup(FoldRanges(ops, words, text, ranges, id), w, j) ==
      Lookup(words, w, j) + (if j == id then OccurrencesIn(ops, text, ranges, w) else [])
    decreases |ranges|
  {
    if ranges != [] {
      var next := CountWordUsage(ops, words, text, ranges[0], id);
      assert FoldRanges(ops, words, text, ranges, id) == FoldRanges(ops, next, text, ranges[1..], id);
      FoldRangesLookupAt(ops, next, text, ranges[1..], id, w, j);
      var here := OccurrenceAt(ops, text, ranges[0], w);
      var tail := OccurrencesIn(ops, text, ranges[1..], w);
      CountWordUsageLookup(ops, words, text, ranges[0], id, w, j);
      assert OccurrencesIn(ops, text, ranges, w) == here + tail;
      AppendWhen(Lookup(words, w, j), Lookup(next, w, j), Lookup(FoldRanges(ops, next, text, ranges[1..], id), w, j),
        here, tail, j == id);
    }
  }

  /** Two appends that happen under the same condition make one. */
  lemma {:induction false} AppendWhen<T>(a: seq<T>, b: seq<T>, c: seq<T>, here: seq<T>, tail: seq<T>, on: bool)
    requires b == a + (if on then here else [])
    requires c == b + (if on then tail else [])
    ensures c == a + (if on then here + tail else [])
  {
    if on {
      assert a + here + tail == a + (here + tail);
    }
  }

  lemma {:induction false} FoldRangesNoEmpty(ops: TextOps, words: WordsIndex, text: string, ranges: seq<(nat, nat)>, id: nat)
    requires forall r | r in ranges :: r.0 <= r.1 <= |text|
    ensures NoEmptyEntries(words) ==> NoEmptyEntries(FoldRanges(ops, words, text, ranges, id))
    decreases |ranges|
  {
    if ranges != [] {
      FoldRangesNoEmpty(ops, CountWordUsage(ops, words, text, ranges[0], id), text, ranges[1..], id);
    }
  }


  /** Counting a verse appends, for every stem, that verse's occurrences of it
      to verse `id`'s list and touches no other verse. */
  lemma {:induction false} CountVerseLookup(ops: TextOps, text: string, words: WordsIndex, id: nat)
    ensures forall w: string, j: nat ::
      Lookup(CountVerse(ops, text, words, id), w, j) == Lookup(words, w, j) + (if j == id then Occurrences(ops, text, w) else [])
    ensures NoEmptyEntries(words) ==> NoEmptyEntries(CountVerse(ops, text, words, id))
  {
    FoldRangesLookup(ops, words, text, VerseRanges(ops, text), id);
  }

  // ---------------------------------------------------------------------------
  // build_index
  // ---------------------------------------------------------------------------

  /** The words map after indexing `entries` with ids 1, 2, ... in order. */
  function IndexedWords(ops: TextOps, entries: seq<(VersePath, Verse)>): WordsIndex
  {
    if entries == [] then map[]
    else
      var n := |entries|;
      CountVerse(ops, entries[n - 1].1.text, IndexedWords(ops, entries[..n - 1]), n)
  }

  lemma {:induction false} IndexedWordsSnoc(ops: TextOps, entries: seq<(VersePath, Verse)>, e: (VersePath, Verse))
    ensures IndexedWords(ops, entries + [e]) == CountVerse(ops, e.1.text, IndexedWords(ops, entries), |entries| + 1)
  {
    assert (entries + [e])[..|entries|] == entries;
  }

  /** The ids 1..n. */
  function IdRange(n: nat): (ids: set<nat>)
    ensures forall id :: id in ids <==> 1 <= id <= n
    ensures |ids| == n
  {
    if n == 0 then {} else IdRange(n - 1) + {n}
  }

  /** The paths map after indexing `entries` with ids 1, 2, ... in order. */
  function IndexedPaths(entries: seq<(VersePath, Verse)>): PathsIndex
  {
    map id | id in IdRange(|entries|) :: entries[id - 1].0
  }

  lemma {:induction false} IndexedPathsSnoc(entries: seq<(VersePath, Verse)>, e: (VersePath, Verse))
    ensures IndexedPaths(entries + [e]) == IndexedPaths(entries)[|entries| + 1 := e.0]
  {
    var all := entries + [e];
    assert forall i :: 0 <= i < |entries| ==> all[i] == entries[i];
  }

  /** One step of a collection's fold in build_index: bump the id, record the
      path, count the verse's words. `done` is what was indexed before. */
  method IndexVerse(ops: TextOps, entry: (VersePath, Verse), words: WordsIndex, paths: PathsIndex,
                    id: nat, ghost done: seq<(VersePath, Verse)>)
    returns (words': WordsIndex, paths': PathsIndex, id': nat)
    requires words == IndexedWords(ops, done) && paths == IndexedPaths(done) && id == |done|
    ensures words' == IndexedWords(ops, done + [entry])
    ensures paths' == IndexedPaths(done + [entry])
    ensures id' == |done| + 1
  {
    var (path, verse) := entry;
    id' := id + 1;
    paths' := paths[id' := path];
    words' := CountVerse(ops, verse.text, words, id');
    IndexedPathsSnoc(done, entry);
    IndexedWordsSnoc(ops, done, entry);
  }

  /** One collection's fold in build_index. `done` is what the earlier folds
      indexed. */
  method IndexCollection(ops: TextOps, entries: seq<(VersePath, Verse)>, words: WordsIndex, paths: PathsIndex,
                         id: nat, ghost done: seq<(VersePath, Verse)>)
    returns (words': WordsIndex, paths': PathsIndex, id': nat)
    requires words == IndexedWords(ops, done) && paths == IndexedPaths(done) && id == |done|
    ensures words' == IndexedWords(ops, done + entries)
    ensures paths' == IndexedPaths(done + entries)
    ensures id' == |done + entries|
  {
    words', paths', id' := words, paths, id;
    ghost var indexed := done;
    for k := 0 to |entries|
      invariant indexed == done + entries[..k]
      invariant words' == IndexedWords(ops, indexed)
      invariant paths' == IndexedPaths(indexed)
      invariant id' == |indexed|
    {
      words', paths', id' := IndexVerse(ops, entries[k], words', paths', id', indexed);
      AppendPrefixSnoc(done, entries, k);
      indexed := indexed + [entries[k]];
    }
    assert entries[..|entries|] == entries;
  }

  /** build_index: the words and paths maps of the whole corpus. */
  method BuildIndex(ops: TextOps, corpus: Corpus) returns (words: WordsIndex, paths: PathsIndex)
    requires Indexable(corpus)
    ensures words == IndexedWords(ops, AllEntries(corpus))
    ensures paths == IndexedPaths(AllEntries(corpus))
  {
    var id: nat := 0;
    var ot, nt, bom, dc, pogp := OtEntries(corpus), NtEntries(corpus), BomEntries(corpus), DcEntries(corpus), PogpEntries(corpus);
    words, paths := map[], map[];
    assert paths == IndexedPaths([]);
    words, paths, id := IndexCollection(ops, ot, words, paths, id, []);
    assert [] + ot == ot;
    words, paths, id := IndexCollection(ops, nt, words, paths, id, ot);
    words, paths, id := IndexCollection(ops, bom, words, paths, id, ot + nt);
    words, paths, id := IndexCollection(ops, dc, words, paths, id, ot + nt + bom);
    words, paths, id := IndexCollection(ops, pogp, words, paths, id, ot + nt + bom + dc);
  }

  // ---------------------------------------------------------------------------
  // What the built maps hold
  // ---------------------------------------------------------------------------

  /** Every stem's list for verse j is that verse's occurrences of the stem;
      ids outside 1..N have nothing. */
  lemma {:induction false} IndexedWordsLookup(ops: TextOps, entries: seq<(VersePath, Verse)>)
    ensures forall w: string, j: nat ::
      Lookup(IndexedWords(ops, entries), w, j) == if 1 <= j <= |entries| then Occurrences(ops, entries[j - 1].1.text, w) else []
    ensures NoEmptyEntries(IndexedWords(ops, entries))
  {
    forall w: string, j: nat ensures Lookup(IndexedWords(ops, entries), w, j) ==
      if 1 <= j <= |entries| then Occurrences(ops, entries[j - 1].1.text, w) else []
    {
      IndexedWordsLookupAt(ops, entries, w, j);
    }
    IndexedWordsNoEmpty(ops, entries);
  }

  lemma {:induction false} IndexedWordsLookupAt(ops: TextOps, entries: seq<(VersePath, Verse)>, w: string, j: nat)
    ensures Lookup(IndexedWords(ops, entries), w, j) ==
      if 1 <= j <= |entries| then Occurrences(ops, entries[j - 1].1.text, w) else []
    decreases |entries|
  {
    if entries != [] {
      var n := |entries|;
      var front := entries[..n - 1];
      var text := entries[n - 1].1.text;
      IndexedWordsLookupAt(ops, front, w, j);
      FoldRangesLookupAt(ops, IndexedWords(ops, front), text, VerseRanges(ops, text), n, w, j);
      if 1 <= j < n {
        assert front[j - 1] == entries[j - 1];
      }
    }
  }

  lemma {:induction false} IndexedWordsNoEmpty(ops: TextOps, entries: seq<(VersePath, Verse)>)
    ensures NoEmptyEntries(IndexedWords(ops, entries))
    decreases |entries|
  {
    if entries != [] {
      var n := |entries|;
      var text := entries[n - 1].1.text;
      IndexedWordsNoEmpty(ops, entries[..n - 1]);
      FoldRangesNoEmpty(ops, IndexedWords(ops, entries[..n - 1]), text, VerseRanges(ops, text), n);
    }
  }


  /** Ids are 1..N, one per verse, and id i holds the path of the i-th verse
      of the traversal. */
  lemma {:induction false} IndexedPathsDense(entries: seq<(VersePath, Verse)>)
    ensures forall id: nat :: id in IndexedPaths(entries) <==> 1 <= id <= |entries|
    ensures |IndexedPaths(entries)| == |entries|
    ensures forall id | id in IndexedPaths(entries) :: IndexedPaths(entries)[id] == entries[id - 1].0
  {
    assert IndexedPaths(entries).Keys == IdRange(|entries|);
  }

  /** Referential integrity: every id filed under any stem is a key of the
      paths map. */
  lemma {:induction false} WordsReferToPaths(ops: TextOps, entries: seq<(VersePath, Verse)>)
    ensures forall w, j | w in IndexedWords(ops, entries) && j in IndexedWords(ops, entries)[w] ::
      j in IndexedPaths(entries)
  {
    IndexedWordsLookup(ops, entries);
    var words := IndexedWords(ops, entries);
    forall w, j | w in words && j in words[w] ensures j in IndexedPaths(entries) {
      assert Lookup(words, w, j) != [];
    }
  }

  /** Every occurrence reported for `w` is one of the ranges and has stem `w`. */
  lemma {:induction false} OccurrencesInSound(ops: TextOps, text: string, ranges: seq<(nat, nat)>, w: string)
    requires forall r | r in ranges :: r.0 <= r.1 <= |text|
    ensures forall sp | sp in OccurrencesIn(ops, text, ranges, w) ::
      (sp.0, sp.0 + sp.1) in ranges && StemAt(ops, text, (sp.0, sp.0 + sp.1)) == w
    decreases |ranges|
  {
    if ranges != [] {
      var r0, rest := ranges[0], ranges[1..];
      OccurrencesInSound(ops, text, rest, w);
      var here := OccurrenceAt(ops, text, r0, w);
      forall sp | sp in here ensures (sp.0, sp.0 + sp.1) == r0 && StemAt(ops, text, r0) == w {
      }
    }
  }

  /** Every range whose stem is `w` is reported. */
  lemma {:induction false} OccurrencesInComplete(ops: TextOps, text: string, ranges: seq<(nat, nat)>, w: string)
    requires forall r | r in ranges :: r.0 <= r.1 <= |text|
    ensures forall r | r in ranges && StemAt(ops, text, r) == w :: (r.0, r.1 - r.0) in OccurrencesIn(ops, text, ranges, w)
    decreases |ranges|
  {
    if ranges != [] {
      var r0, rest := ranges[0], ranges[1..];
      OccurrencesInComplete(ops, text, rest, w);
      assert forall r | r in ranges :: r == r0 || r in rest;
    }
  }

  lemma {:induction false} OccurrencesInAscending(ops: TextOps, text: string, ranges: seq<(nat, nat)>, w: string)
    requires forall r | r in ranges :: r.0 < r.1 <= |text|
    requires forall i, j :: 0 <= i < j < |ranges| ==> ranges[i].1 < ranges[j].0
    ensures forall i, j :: 0 <= i < j < |OccurrencesIn(ops, text, ranges, w)| ==>
      OccurrencesIn(ops, text, ranges, w)[i].0 < OccurrencesIn(ops, text, ranges, w)[j].0
    decreases |ranges|
  {
    if ranges != [] {
      var rest := ranges[1..];
      OccurrencesInAscending(ops, text, rest, w);
      OccurrencesInFrom(ops, text, rest, w, ranges[0].0 + 1);
      AscendingPrepend(OccurrenceAt(ops, text, ranges[0], w), OccurrencesIn(ops, text, rest, w), ranges[0].0);
    }
  }

  /** Occurrences among ranges that all start at `lo` or later start there
      or later too. */
  lemma {:induction false} OccurrencesInFrom(ops: TextOps, text: string, ranges: seq<(nat, nat)>, w: string, lo: nat)
    requires forall r | r in ranges :: r.0 <= r.1 <= |text|
    requires forall k :: 0 <= k < |ranges| ==> lo <= ranges[k].0
    ensures forall sp | sp in OccurrencesIn(ops, text, ranges, w) :: lo <= sp.0
  {
    OccurrencesInSound(ops, text, ranges, w);
    forall sp | sp in OccurrencesIn(ops, text, ranges, w) ensures lo <= sp.0 {
      var k :| 0 <= k < |ranges| && ranges[k] == (sp.0, sp.0 + sp.1);
    }
  }


  /** At most one span starting at `lo` before spans that all start after
      `lo` and ascend: the whole still ascends. */
  lemma {:induction false} AscendingPrepend(here: seq<Span>, tail: seq<Span>, lo: nat)
    requires |here| <= 1 && (here != [] ==> here[0].0 == lo)
    requires forall sp | sp in tail :: lo < sp.0
    requires forall i, j :: 0 <= i < j < |tail| ==> tail[i].0 < tail[j].0
    ensures forall i, j :: 0 <= i < j < |here + tail| ==> (here + tail)[i].0 < (here + tail)[j].0
  {
    if here != [] {
      forall i, j | 0 <= i < j < |here + tail| ensures (here + tail)[i].0 < (here + tail)[j].0 {
        assert (here + tail)[j] == tail[j - 1];
        if i > 0 {
          assert (here + tail)[i] == tail[i - 1];
        }
      }
    }
  }

  /** The words map holds exactly the word runs of each verse: (s, l) is filed
      under stem w for verse j if and only if [s, s + l) is a word run of that
      verse whose stem is w. */
  lemma {:induction false} IndexedWordsExact(ops: TextOps, entries: seq<(VersePath, Verse)>, w: string, j: nat, s: nat, l: nat)
    ensures (s, l) in Lookup(IndexedWords(ops, entries), w, j) <==>
      1 <= j <= |entries| &&
      IsWordRun(ops, entries[j - 1].1.text, s, s + l) &&
      StemAt(ops, entries[j - 1].1.text, (s, s + l)) == w
  {
    IndexedWordsLookup(ops, entries);
    if 1 <= j <= |entries| {
      var text := entries[j - 1].1.text;
      assert Lookup(IndexedWords(ops, entries), w, j) == Occurrences(ops, text, w);
      OccurrencesExact(ops, text, w, s, l);
    } else {
      assert Lookup(IndexedWords(ops, entries), w, j) == [];
    }
  }

  /** (s, l) is an occurrence of `w` in a verse text if and only if [s, s + l)
      is a word run of the text whose stem is `w`. */
  lemma {:induction false} OccurrencesExact(ops: TextOps, text: string, w: string, s: nat, l: nat)
    ensures (s, l) in Occurrences(ops, text, w) <==> IsWordRun(ops, text, s, s + l) && StemAt(ops, text, (s, s + l)) == w
  {
    var ranges := VerseRanges(ops, text);
    var occ := Occurrences(ops, text, w);
    if (s, l) in occ {
      assert (s, s + l) in ranges && StemAt(ops, text, (s, s + l)) == w by {
        OccurrencesInSound(ops, text, ranges, w);
      }
      assert IsWordRun(ops, text, s, s + l) by {
        WordRangesShape(ops, text);
      }
    }
    if IsWordRun(ops, text, s, s + l) && StemAt(ops, text, (s, s + l)) == w {
      assert (s, s + l) in ranges by {
        WordRangesShape(ops, text);
      }
      assert (s, l) in occ by {
        OccurrencesInComplete(ops, text, ranges, w);
      }
    }
  }

  /** Within one verse's list the occurrences start at strictly increasing
      offsets. */
  lemma {:induction false} IndexedWordsAscending(ops: TextOps, entries: seq<(VersePath, Verse)>, w: string, j: nat)
    ensures forall a, b :: 0 <= a < b < |Lookup(IndexedWords(ops, entries), w, j)| ==>
      Lookup(IndexedWords(ops, entries), w, j)[a].0 < Lookup(IndexedWords(ops, entries), w, j)[b].0
  {
    IndexedWordsLookup(ops, entries);
    if 1 <= j <= |entries| {
      var text := entries[j - 1].1.text;
      WordRangesShape(ops, text);
      OccurrencesInAscending(ops, text, VerseRanges(ops, text), w);
    }
  }

  /** Each collection occupies one contiguous block of ids, in the order
      OT, NT, BoM, D&C, PoGP. */
  lemma {:induction false} CollectionBlocks(corpus: Corpus, id: nat)
    requires Indexable(corpus)
    requires 1 <= id <= |AllEntries(corpus)|
    ensures var p := AllEntries(corpus)[id - 1].0;
      var a := |OtEntries(corpus)|;
      var b := a + |NtEntries(corpus)|;
      var c := b + |BomEntries(corpus)|;
      var d := c + |DcEntries(corpus)|;
      (p.PathOT? <==> id <= a) &&
      (p.PathNT? <==> a < id <= b) &&
      (p.PathBoM? <==> b < id <= c) &&
      (p.PathDC? <==> c < id <= d) &&
      (p.PathPOGP? <==> d < id)
  {
    KindsInBlocks(OtEntries(corpus), NtEntries(corpus), BomEntries(corpus), DcEntries(corpus), PogpEntries(corpus), id - 1);
  }
  /** In five concatenated blocks whose paths are of the five collections
      in turn, the kind of the path at `i` tells which block `i` falls in. */
  lemma {:induction false} KindsInBlocks(ot: seq<(VersePath, Verse)>, nt: seq<(VersePath, Verse)>, bom: seq<(VersePath, Verse)>,
                                         dc: seq<(VersePath, Verse)>, pogp: seq<(VersePath, Verse)>, i: nat)
    requires forall k :: 0 <= k < |ot| ==> ot[k].0.PathOT?
    requires forall k :: 0 <= k < |nt| ==> nt[k].0.PathNT?
    requires forall k :: 0 <= k < |bom| ==> bom[k].0.PathBoM?
    requires forall k :: 0 <= k < |dc| ==> dc[k].0.PathDC?
    requires forall k :: 0 <= k < |pogp| ==> pogp[k].0.PathPOGP?
    requires i < |ot| + |nt| + |bom| + |dc| + |pogp|
    ensures var p := (ot + nt + bom + dc + pogp)[i].0;
      var a := |ot|;
      var b := a + |nt|;
      var c := b + |bom|;
      var d := c + |dc|;
      (p.PathOT? <==> i < a) &&
      (p.PathNT? <==> a <= i < b) &&
      (p.PathBoM? <==> b <= i < c) &&
      (p.PathDC? <==> c <= i < d) &&
      (p.PathPOGP? <==> d <= i)
  {
    var all := ot + nt + bom + dc + pogp;
    var a := |ot|;
    var b := a + |nt|;
    var c := b + |bom|;
    var d := c + |dc|;
    if i < a {
      assert all[i] == ot[i];
    } else if i < b {
      assert all[i] == nt[i - a];
    } else if i < c {
      assert all[i] == bom[i - b];
    } else if i < d {
      assert all[i] == dc[i - c];
    } else {
      assert all[i] == pogp[i - d];
    }
  }


  /** Verse v of chapter c of book b of a books collection, with the path
      the builder gives it: the book index cast to u8, and chapter and verse
      coordinates one less than the chapter and verse numbers. */
  lemma {:induction false} BookPathEntryAt(coll: Collection, books: seq<Book>, b: nat, c: nat, v: nat)
    requires ChaptersNumbered(books) && VersesNumbered(PrepareBookPaths(books))
    requires b < |books| && c < |books[b].chapters| && v < |books[b].chapters[c].verses|
    ensures var i := BooksVerseCount(books[..b]) + VerseCount(books[b].chapters[..c]) + v;
      var entries := BookPathEntries(coll, PrepareBookPaths(books));
      var verse := books[b].chapters[c].verses[v];
      i < |entries| &&
      entries[i].1 == verse &&
      entries[i].0 == BookPath(coll, AsU8(b), books[b].chapters[c].chapter - 1, entries[i].0.verse) &&
      entries[i].0.verse + 1 == verse.verse
  {
    PrepareBookPathsAt(books, b, c, v);
  }

  /** The Old Testament verse v of chapter c of book b gets id (number of
      earlier verses) + 1, and a path whose verse coordinate is the verse
      number minus one. */
  lemma {:induction false} OtVerseId(corpus: Corpus, b: nat, c: nat, v: nat)
    requires Indexable(corpus)
    requires b < |corpus.ot.books| && c < |corpus.ot.books[b].chapters| && v < |corpus.ot.books[b].chapters[c].verses|
    ensures var books := corpus.ot.books;
      var id := BooksVerseCount(books[..b]) + VerseCount(books[b].chapters[..c]) + v + 1;
      var verse := books[b].chapters[c].verses[v];
      id <= |AllEntries(corpus)| &&
      AllEntries(corpus)[id - 1].1 == verse &&
      AllEntries(corpus)[id - 1].0 == PathOT(AsU8(b), books[b].chapters[c].chapter - 1, AllEntries(corpus)[id - 1].0.verse) &&
      AllEntries(corpus)[id - 1].0.verse + 1 == verse.verse
  {
    var books := corpus.ot.books;
    BookPathEntryAt(OT, books, b, c, v);
    var i := BooksVerseCount(books[..b]) + VerseCount(books[b].chapters[..c]) + v;
    assert AllEntries(corpus)[i] == OtEntries(corpus)[i];
  }

  /** The Pearl of Great Price verse v of chapter c of book b gets the id
      after every verse of the other four collections and of the earlier
      PoGP verses, and like every other collection a path whose verse
      coordinate is the verse number minus one. */
  lemma {:induction false} PogpVerseId(corpus: Corpus, b: nat, c: nat, v: nat)
    requires Indexable(corpus)
    requires b < |corpus.pogp.books| && c < |corpus.pogp.books[b].chapters| && v < |corpus.pogp.books[b].chapters[c].verses|
    ensures var books := corpus.pogp.books;
      var before := |OtEntries(corpus)| + |NtEntries(corpus)| + |BomEntries(corpus)| + |DcEntries(corpus)|;
      var id := before + BooksVerseCount(books[..b]) + VerseCount(books[b].chapters[..c]) + v + 1;
      var verse := books[b].chapters[c].verses[v];
      id <= |AllEntries(corpus)| &&
      AllEntries(corpus)[id - 1].1 == verse &&
      AllEntries(corpus)[id - 1].0 == PathPOGP(AsU8(b), books[b].chapters[c].chapter - 1, AllEntries(corpus)[id - 1].0.verse) &&
      AllEntries(corpus)[id - 1].0.verse + 1 == verse.verse
  {
    PogpIdAt(OtEntries(corpus), NtEntries(corpus), BomEntries(corpus), DcEntries(corpus), corpus.pogp.books, b, c, v);
  }

  /** The same fact for any four blocks put in front of the Pearl of Great
      Price entries. */
  lemma {:induction false} PogpIdAt(ot: seq<(VersePath, Verse)>, nt: seq<(VersePath, Verse)>, bom: seq<(VersePath, Verse)>,
                                    dc: seq<(VersePath, Verse)>, books: seq<Book>, b: nat, c: nat, v: nat)
    requires ChaptersNumbered(books) && VersesNumbered(PrepareBookPaths(books))
    requires b < |books| && c < |books[b].chapters| && v < |books[b].chapters[c].verses|
    ensures var all := ot + nt + bom + dc + BookPathEntries(PoGP, PrepareBookPaths(books));
      var id := |ot| + |nt| + |bom| + |dc| + BooksVerseCount(books[..b]) + VerseCount(books[b].chapters[..c]) + v + 1;
      var verse := books[b].chapters[c].verses[v];
      id <= |all| &&
      all[id - 1].1 == verse &&
      all[id - 1].0 == PathPOGP(AsU8(b), books[b].chapters[c].chapter - 1, all[id - 1].0.verse) &&
      all[id - 1].0.verse + 1 == verse.verse
  {
    BookPathEntryAt(PoGP, books, b, c, v);
    var i := BooksVerseCount(books[..b]) + VerseCount(books[b].chapters[..c]) + v;
    EntryInLastBlock(ot, nt, bom, dc, BookPathEntries(PoGP, PrepareBookPaths(books)),
      i, AsU8(b), books[b].chapters[c].chapter - 1, books[b].chapters[c].verses[v]);
  }

  /** A Pearl of Great Price entry keeps its path and verse once the other four
      collections are put in front of it. */
  lemma {:induction false} EntryInLastBlock(ot: seq<(VersePath, Verse)>, nt: seq<(VersePath, Verse)>, bom: seq<(VersePath, Verse)>,
                                            dc: seq<(VersePath, Verse)>, pogp: seq<(VersePath, Verse)>,
                                            i: nat, b: nat, c: nat, verse: Verse)
    requires i < |pogp| && pogp[i].1 == verse && pogp[i].0 == BookPath(PoGP, b, c, pogp[i].0.verse)
    ensures var all := ot + nt + bom + dc + pogp;
      var id := |ot| + |nt| + |bom| + |dc| + i + 1;
      id <= |all| &&
      all[id - 1].1 == verse &&
      all[id - 1].0 == PathPOGP(b, c, all[id - 1].0.verse) &&
      all[id - 1].0.verse == pogp[i].0.verse
  {
    LastBlockAt(ot, nt, bom, dc, pogp, i);
  }
}
