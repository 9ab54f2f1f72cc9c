/**
 * The older index builder of the data bundler (data-bundler/src/main.rs
 * prepare_book_paths and build_index with its closures make_splittable,
 * count_word_usage and count_verse).
 *
 * It walks the corpus in the same order as the current builder and hands
 * out ids the same way, but it files under each stem only the set of verse
 * ids that use it (no positions), finds a verse's words by normalising the
 * text and splitting it on whitespace, keeps book and section indices
 * uncast, and stores the Pearl of Great Price verse number without
 * subtracting one.
 */
module LegacyIndexBuilder {
  import opened Base
  import opened Text
  import opened Tokenizer
  import opened Scripture
  import IndexBuilder

  /** stem -> the ids of the verses using it. */
  type StemsIndex = map<string, set<nat>>

  /** Scripture ids are u32 values here. */
  const MAX_LEGACY_ID: nat := 0xFFFF_FFFF

  // ---------------------------------------------------------------------------
  // prepare_book_paths (usize coordinates)
  // ---------------------------------------------------------------------------

  /** prepare_book_paths: every verse of the collection with its book index
      and chapter coordinate, book-major, then chapter, then verse. */
  function BookPaths(books: seq<Book>): (r: seq<(nat, nat, Verse)>)
    requires IndexBuilder.ChaptersNumbered(books)
    ensures |r| == IndexBuilder.BooksVerseCount(books)
  {
    if books == [] then []
    else
      var n := |books| - 1;
      IndexBuilder.ChaptersNumberedPrefix(books, n);
      BookPaths(books[..n]) + IndexBuilder.BookEntries(n, books[n].chapters)
  }

  /** Verse v of chapter c of book b sits after every verse of the earlier
      books and earlier chapters, with coordinates (b, chapter number - 1). */
  lemma {:induction false} BookPathsAt(books: seq<Book>, b: nat, c: nat, v: nat)
    requires IndexBuilder.ChaptersNumbered(books)
    requires b < |books| && c < |books[b].chapters| && v < |books[b].chapters[c].verses|
    ensures IndexBuilder.BooksVerseCount(books[..b]) + IndexBuilder.VerseCount(books[b].chapters[..c]) + v < |BookPaths(books)|
    ensures BookPaths(books)[IndexBuilder.BooksVerseCount(books[..b]) + IndexBuilder.VerseCount(books[b].chapters[..c]) + v] ==
      (b, books[b].chapters[c].chapter - 1, books[b].chapters[c].verses[v])
    decreases |books|
  {
    var n := |books| - 1;
    var front := books[..n];
    IndexBuilder.ChaptersNumberedPrefix(books, n);
    assert BookPaths(books) == BookPaths(front) + IndexBuilder.BookEntries(n, books[n].chapters);
    if b < n {
      assert books[..b] == front[..b];
      assert front[b] == books[b];
      BookPathsAt(front, b, c, v);
    } else {
      assert books[..b] == front;
      IndexBuilder.BookEntriesAt(n, books[n].chapters, c, v);
    }
  }

  /** With at most 256 books the u8 cast of the current builder changes
      nothing, and both versions of prepare_book_paths agree. */
  lemma {:induction false} BookPathsAgree(books: seq<Book>)
    requires IndexBuilder.ChaptersNumbered(books) && |books| <= 256
    ensures BookPaths(books) == IndexBuilder.PrepareBookPaths(books)
    decreases |books|
  {
    if books != [] {
      var n := |books| - 1;
      assert IndexBuilder.ChaptersNumbered(books[..n]) by {
        forall k | 0 <= k < n ensures IndexBuilder.ChaptersFromOne(books[..n][k].chapters) {
          assert books[..n][k] == books[k];
        }
      }
      BookPathsAgree(books[..n]);
      assert IndexBuilder.AsU8(n) == n;
    }
  }

  // ---------------------------------------------------------------------------
  // count_word_usage and count_verse
  // ---------------------------------------------------------------------------

  /** Stem `w` is filed for verse `j`. */
  predicate Files(words: StemsIndex, w: string, j: nat)
  {
    w in words && j in words[w]
  }

  /** No stem is stored with an empty set. */
  ghost predicate NoEmptySets(words: StemsIndex)
  {
    forall w | w in words :: words[w] != {}
  }

  /** count_word_usage: insert verse `id` into the set of the word's stem,
      creating the set when the stem is new. */
  function CountWordUsage(ops: TextOps, words: StemsIndex, word: string, id: nat): (res: StemsIndex)
    ensures res.Keys == words.Keys + {ops.stem(word)}
    ensures forall w: string, j: nat :: Files(res, w, j) <==> Files(words, w, j) || (w == ops.stem(word) && j == id)
    ensures NoEmptySets(words) ==> NoEmptySets(res)
  {
    var stemmed := ops.stem(word);
    var versesUsingWord: set<nat> := if stemmed in words then words[stemmed] + {id} else {id};
    words[stemmed := versesUsingWord]
  }

  /** Inserting an id that is already filed under the stem changes nothing;
      in particular inserting twice is inserting once. */
  lemma {:induction false} CountWordUsageFiled(ops: TextOps, words: StemsIndex, word: string, id: nat)
    requires Files(words, ops.stem(word), id)
    ensures CountWordUsage(ops, words, word, id) == words
  {
    var stemmed := ops.stem(word);
    assert words[stemmed] + {id} == words[stemmed];
  }

  /** A stem other than the word's own keeps its set. */
  lemma {:induction false} CountWordUsageOthers(ops: TextOps, words: StemsIndex, word: string, id: nat, w: string)
    requires w in words && w != ops.stem(word)
    ensures CountWordUsage(ops, words, word, id)[w] == words[w]
  {
  }

  /** The words of a verse: its normalised text split on whitespace. */
  function VerseTokens(ops: TextOps, text: string): seq<string>
  {
    SplitWhitespace(MakeSplittable(ops, text))
  }

  function StemsOf(ops: TextOps, tokens: seq<string>): set<string>
  {
    set t | t in tokens :: ops.stem(t)
  }

  /** The fold of count_word_usage over the words of a verse. */
  function FoldWords(ops: TextOps, words: StemsIndex, tokens: seq<string>, id: nat): StemsIndex
    decreases |tokens|
  {
    if tokens == [] then words
    else FoldWords(ops, CountWordUsage(ops, words, tokens[0], id), tokens[1..], id)
  }

  /** count_verse. */
  function CountVerse(ops: TextOps, text: string, words: StemsIndex, id: nat): StemsIndex
  {
    FoldWords(ops, words, VerseTokens(ops, text), id)
  }

  lemma {:induction false} FoldWordsFiles(ops: TextOps, words: StemsIndex, tokens: seq<string>, id: nat)
    ensures forall w: string, j: nat ::
      Files(FoldWords(ops, words, tokens, id), w, j) <==> Files(words, w, j) || (j == id && w in StemsOf(ops, tokens))
    ensures NoEmptySets(words) ==> NoEmptySets(FoldWords(ops, words, tokens, id))
    decreases |tokens|
  {
    if tokens != [] {
      var next := CountWordUsage(ops, words, tokens[0], id);
      FoldWordsFiles(ops, next, tokens[1..], id);
      assert StemsOf(ops, tokens) == {ops.stem(tokens[0])} + StemsOf(ops, tokens[1..]) by {
        assert forall t | t in tokens :: t == tokens[0] || t in tokens[1..];
      }
    }
  }

  /** Counting a verse files verse `id` under exactly the stems of its words
      and touches no other verse. */
  lemma {:induction false} CountVerseFiles(ops: TextOps, text: string, words: StemsIndex, id: nat)
    ensures forall w: string, j: nat ::
      Files(CountVerse(ops, text, words, id), w, j) <==> Files(words, w, j) || (j == id && w in StemsOf(ops, VerseTokens(ops, text)))
    ensures NoEmptySets(words) ==> NoEmptySets(CountVerse(ops, text, words, id))
  {
    FoldWordsFiles(ops, words, VerseTokens(ops, text), id);
  }

  /** A query is tokenized as a verse is: the stems the search looks up for
      a raw query are exactly those under which counting a verse whose text
      is the lowercased query files that verse. */
  lemma {:induction false} QueryStemsAsVerse(ops: TextOps, raw: string, id: nat)
    ensures forall w: string :: w in QueryStems(ops, raw) <==> Files(CountVerse(ops, ops.lower(raw), map[], id), w, id)
  {
    CountVerseFiles(ops, ops.lower(raw), map[], id);
    assert QueryStems(ops, raw) == StemsOf(ops, VerseTokens(ops, ops.lower(raw)));
  }

  // ---------------------------------------------------------------------------
  // The verse paths, one per verse, in id order
  // ---------------------------------------------------------------------------

  /** The verse coordinate this builder stores: the verse number minus one,
      except for the Pearl of Great Price, whose verse number is stored as
      it is. */
  function VerseCoordinate(coll: IndexBuilder.Collection, verse: Verse): nat
    requires coll == IndexBuilder.PoGP || verse.verse >= 1
  {
    if coll == IndexBuilder.PoGP then verse.verse else verse.verse - 1
  }

  ghost predicate CoordinatesDefined(coll: IndexBuilder.Collection, entries: seq<(nat, nat, Verse)>)
  {
    forall i :: 0 <= i < |entries| ==> coll == IndexBuilder.PoGP || entries[i].2.verse >= 1
  }

  function BookPathEntries(coll: IndexBuilder.Collection, entries: seq<(nat, nat, Verse)>): (r: seq<(VersePath, Verse)>)
    requires CoordinatesDefined(coll, entries)
    ensures |r| == |entries|
    ensures forall i :: 0 <= i < |entries| ==>
      r[i] == (IndexBuilder.BookPath(coll, entries[i].0, entries[i].1, VerseCoordinate(coll, entries[i].2)), entries[i].2)
  {
    seq(|entries|, i requires 0 <= i < |entries| =>
      (IndexBuilder.BookPath(coll, entries[i].0, entries[i].1, VerseCoordinate(coll, entries[i].2)), entries[i].2))
  }

  /** The D&C paths; the section coordinate is kept as it is. */
  function SectionPathEntries(entries: seq<(nat, Verse)>): (r: seq<(VersePath, Verse)>)
    requires IndexBuilder.SectionVersesNumbered(entries)
    ensures |r| == |entries|
    ensures forall i :: 0 <= i < |entries| ==> r[i] == (PathDC(entries[i].0, entries[i].1.verse - 1), entries[i].1)
  {
    seq(|entries|, i requires 0 <= i < |entries| => (PathDC(entries[i].0, entries[i].1.verse - 1), entries[i].1))
  }

  /** A corpus this builder indexes without an arithmetic fault: chapter,
      section and verse numbers (outside the Pearl of Great Price) start at 1,
      and the u32 id counter does not overflow. */
  ghost predicate Indexable(corpus: Corpus)
  {
    IndexBuilder.ChaptersNumbered(corpus.ot.books) && IndexBuilder.ChaptersNumbered(corpus.nt.books) &&
    IndexBuilder.ChaptersNumbered(corpus.bom.books) && IndexBuilder.ChaptersNumbered(corpus.pogp.books) &&
    IndexBuilder.SectionsNumbered(corpus.dc.sections) &&
    CoordinatesDefined(IndexBuilder.OT, BookPaths(corpus.ot.books)) &&
    CoordinatesDefined(IndexBuilder.NT, BookPaths(corpus.nt.books)) &&
    CoordinatesDefined(IndexBuilder.BoM, BookPaths(corpus.bom.books)) &&
    IndexBuilder.SectionVersesNumbered(IndexBuilder.SectionEntries(corpus.dc.sections)) &&
    |BookPaths(corpus.ot.books)| + |BookPaths(corpus.nt.books)| + |BookPaths(corpus.bom.books)| +
      |IndexBuilder.SectionEntries(corpus.dc.sections)| + |BookPaths(corpus.pogp.books)| <= MAX_LEGACY_ID
  }

  function OtEntries(corpus: Corpus): (r: seq<(VersePath, Verse)>)
    requires Indexable(corpus)
    ensures forall i :: 0 <= i < |r| ==> r[i].0.PathOT?
  {
    BookPathEntries(IndexBuilder.OT, BookPaths(corpus.ot.books))
  }

  function NtEntries(corpus: Corpus): (r: seq<(VersePath, Verse)>)
    requires Indexable(corpus)
    ensures forall i :: 0 <= i < |r| ==> r[i].0.PathNT?
  {
    BookPathEntries(IndexBuilder.NT, BookPaths(corpus.nt.books))
  }

  function BomEntries(corpus: Corpus): (r: seq<(VersePath, Verse)>)
    requires Indexable(corpus)
    ensures forall i :: 0 <= i < |r| ==> r[i].0.PathBoM?
  {
    BookPathEntries(IndexBuilder.BoM, BookPaths(corpus.bom.books))
  }

  function DcEntries(corpus: Corpus): (r: seq<(VersePath, Verse)>)
    requires Indexable(corpus)
    ensures forall i :: 0 <= i < |r| ==> r[i].0.PathDC?
  {
    SectionPathEntries(IndexBuilder.SectionEntries(corpus.dc.sections))
  }

  function PogpEntries(corpus: Corpus): (r: seq<(VersePath, Verse)>)
    requires Indexable(corpus)
    ensures forall i :: 0 <= i < |r| ==> r[i].0.PathPOGP?
  {
    BookPathEntries(IndexBuilder.PoGP, BookPaths(corpus.pogp.books))
  }

  /** Every verse of the corpus with its path, in the order ids are handed out. */
  function AllEntries(corpus: Corpus): (r: seq<(VersePath, Verse)>)
    requires Indexable(corpus)
    ensures |r| <= MAX_LEGACY_ID
  {
    OtEntries(corpus) + NtEntries(corpus) + BomEntries(corpus) + DcEntries(corpus) + PogpEntries(corpus)
  }

  // ---------------------------------------------------------------------------
  // build_index
  // ---------------------------------------------------------------------------

  /** The stems map after indexing `entries` with ids 1, 2, ... in order. */
  function IndexedStems(ops: TextOps, entries: seq<(VersePath, Verse)>): StemsIndex
  {
    if entries == [] then map[]
    else
      var n := |entries|;
      CountVerse(ops, entries[n - 1].1.text, IndexedStems(ops, entries[..n - 1]), n)
  }

  lemma {:induction false} IndexedStemsSnoc(ops: TextOps, entries: seq<(VersePath, Verse)>, e: (VersePath, Verse))
    ensures IndexedStems(ops, entries + [e]) == CountVerse(ops, e.1.text, IndexedStems(ops, entries), |entries| + 1)
  {
    assert (entries + [e])[..|entries|] == entries;
  }

  /** One fold step: bump the id, record the path, count the verse's words. */
  method IndexVerse(ops: TextOps, entry: (VersePath, Verse), words: StemsIndex, paths: PathsIndex,
                    id: nat, ghost done: seq<(VersePath, Verse)>)
    returns (words': StemsIndex, paths': PathsIndex, id': nat)
    requires words == IndexedStems(ops, done) && paths == IndexBuilder.IndexedPaths(done) && id == |done|
    ensures words' == IndexedStems(ops, done + [entry])
    ensures paths' == IndexBuilder.IndexedPaths(done + [entry])
    ensures id' == |done| + 1
  {
    var (path, verse) := entry;
    id' := id + 1;
    paths' := paths[id' := path];
    words' := CountVerse(ops, verse.text, words, id');
    IndexBuilder.IndexedPathsSnoc(done, entry);
    IndexedStemsSnoc(ops, done, entry);
  }

  /** One collection's fold. `done` is what the earlier folds indexed. */
  method IndexCollection(ops: TextOps, entries: seq<(VersePath, Verse)>, words: StemsIndex, paths: PathsIndex,
                         id: nat, ghost done: seq<(VersePath, Verse)>)
    returns (words': StemsIndex, paths': PathsIndex, id': nat)
    requires words == IndexedStems(ops, done) && paths == IndexBuilder.IndexedPaths(done) && id == |done|
    ensures words' == IndexedStems(ops, done + entries)
    ensures paths' == IndexBuilder.IndexedPaths(done + entries)
    ensures id' == |done + entries|
  {
    words', paths', id' := words, paths, id;
    ghost var indexed := done;
    for k := 0 to |entries|
      invariant indexed == done + entries[..k]
      invariant words' == IndexedStems(ops, indexed)
      invariant paths' == IndexBuilder.IndexedPaths(indexed)
      invariant id' == |indexed|
    {
      words', paths', id' := IndexVerse(ops, entries[k], words', paths', id', indexed);
      AppendPrefixSnoc(done, entries, k);
      indexed := indexed + [entries[k]];
    }
    assert entries[..|entries|] == entries;
  }

  /** build_index: the stems and paths maps of the whole corpus. */
  method BuildIndex(ops: TextOps, corpus: Corpus) returns (words: StemsIndex, paths: PathsIndex)
    requires Indexable(corpus)
    ensures words == IndexedStems(ops, AllEntries(corpus))
    ensures paths == IndexBuilder.IndexedPaths(AllEntries(corpus))
  {
    var id: nat := 0;
    var ot, nt, bom, dc, pogp := OtEntries(corpus), NtEntries(corpus), BomEntries(corpus), DcEntries(corpus), PogpEntries(corpus);
    words, paths := map[], map[];
    assert paths == IndexBuilder.IndexedPaths([]);
    words, paths, id := IndexCollection(ops, ot, words, paths, id, []);
    assert [] + ot == ot;
    words, paths, id := IndexCollection(ops, nt, words, paths, id, ot);
    words, paths, id := IndexCollection(ops, bom, words, paths, id, ot + nt);
    words, paths, id := IndexCollection(ops, dc, words, paths, id, ot + nt + bom);
    words, paths, id := IndexCollection(ops, pogp, words, paths, id, ot + nt + bom + dc);
  }

  // ---------------------------------------------------------------------------
  // What the built maps hold
  // ---------------------------------------------------------------------------

  /** Verse j is filed under stem w exactly when j is an id of the traversal
      and w is the stem of one of the verse's words; no set is empty. */
  lemma {:induction false} IndexedStemsFiles(ops: TextOps, entries: seq<(VersePath, Verse)>)
    ensures forall w: string, j: nat ::
      Files(IndexedStems(ops, entries), w, j) <==>
        1 <= j <= |entries| && w in StemsOf(ops, VerseTokens(ops, entries[j - 1].1.text))
    ensures NoEmptySets(IndexedStems(ops, entries))
    decreases |entries|
  {
    if entries != [] {
      var n := |entries|;
      var front := entries[..n - 1];
      IndexedStemsFiles(ops, front);
      CountVerseFiles(ops, entries[n - 1].1.text, IndexedStems(ops, front), n);
      assert forall i :: 0 <= i < n - 1 ==> front[i] == entries[i];
    }
  }

  /** Referential integrity: every id filed under any stem is a key of the
      paths map. */
  lemma {:induction false} StemsReferToPaths(ops: TextOps, entries: seq<(VersePath, Verse)>)
    ensures forall w, j | w in IndexedStems(ops, entries) && j in IndexedStems(ops, entries)[w] ::
      j in IndexBuilder.IndexedPaths(entries)
  {
    IndexedStemsFiles(ops, entries);
    var words := IndexedStems(ops, entries);
    forall w, j | w in words && j in words[w] ensures j in IndexBuilder.IndexedPaths(entries) {
      assert Files(words, w, j);
    }
  }

  /** Each collection occupies one contiguous block of ids, in the order
      OT, NT, BoM, D&C, PoGP. */
  lemma {:induction false} CollectionBlocks(corpus: Corpus, id: nat)
    requires Indexable(corpus)
    requires 1 <= id <= |AllEntries(corpus)|
    ensures var p := AllEntries(corpus)[id - 1].0;
      var a := |OtEntries(corpus)|;
      var b := a + |NtEntries(corpus)|;
      var c := b + |BomEntries(corpus)|;
      var d := c + |DcEntries(corpus)|;
      (p.PathOT? <==> id <= a) &&
      (p.PathNT? <==> a < id <= b) &&
      (p.PathBoM? <==> b < id <= c) &&
      (p.PathDC? <==> c < id <= d) &&
      (p.PathPOGP? <==> d < id)
  {
    IndexBuilder.KindsInBlocks(OtEntries(corpus), NtEntries(corpus), BomEntries(corpus), DcEntries(corpus), PogpEntries(corpus), id - 1);
  }

  /** The Pearl of Great Price verse v of chapter c of book b gets the id
      after every verse of the other four collections and of the earlier
      PoGP verses; its path keeps the verse NUMBER as verse coordinate. */
  lemma {:induction false} PogpVerseId(corpus: Corpus, b: nat, c: nat, v: nat)
    requires Indexable(corpus)
    requires b < |corpus.pogp.books| && c < |corpus.pogp.books[b].chapters| && v < |corpus.pogp.books[b].chapters[c].verses|
    ensures var books := corpus.pogp.books;
      var before := |OtEntries(corpus)| + |NtEntries(corpus)| + |BomEntries(corpus)| + |DcEntries(corpus)|;
      var id := before + IndexBuilder.BooksVerseCount(books[..b]) + IndexBuilder.VerseCount(books[b].chapters[..c]) + v + 1;
      var verse := books[b].chapters[c].verses[v];
      id <= |AllEntries(corpus)| &&
      AllEntries(corpus)[id - 1] == (PathPOGP(b, books[b].chapters[c].chapter - 1, verse.verse), verse)
  {
    var books := corpus.pogp.books;
    var before := |OtEntries(corpus)| + |NtEntries(corpus)| + |BomEntries(corpus)| + |DcEntries(corpus)|;
    var i := IndexBuilder.BooksVerseCount(books[..b]) + IndexBuilder.VerseCount(books[b].chapters[..c]) + v;
    BookPathsAt(books, b, c, v);
    assert AllEntries(corpus)[before + i] == PogpEntries(corpus)[i];
  }

  /** As written, a Pearl of Great Price verse is stored with its verse
      number as the coordinate, one more than the current builder stores
      for the same verse, while both builders give it the same id. Every
      other collection stores the verse number minus one. */
  lemma {:induction false} PogpVerseOffByOne(corpus: Corpus, b: nat, c: nat, v: nat)
    requires Indexable(corpus) && IndexBuilder.Indexable(corpus)
    requires |corpus.pogp.books| <= 256
    requires b < |corpus.pogp.books| && c < |corpus.pogp.books[b].chapters| && v < |corpus.pogp.books[b].chapters[c].verses|
    ensures var books := corpus.pogp.books;
      var before := |OtEntries(corpus)| + |NtEntries(corpus)| + |BomEntries(corpus)| + |DcEntries(corpus)|;
      var id := before + IndexBuilder.BooksVerseCount(books[..b]) + IndexBuilder.VerseCount(books[b].chapters[..c]) + v + 1;
      var verse := books[b].chapters[c].verses[v];
      id <= |AllEntries(corpus)| && id <= |IndexBuilder.AllEntries(corpus)| &&
      AllEntries(corpus)[id - 1].1 == verse &&
      AllEntries(corpus)[id - 1].0 == PathPOGP(b, books[b].chapters[c].chapter - 1, verse.verse) &&
      AllEntries(corpus)[id - 1].0.verse == IndexBuilder.AllEntries(corpus)[id - 1].0.verse + 1
  {
    PogpVerseId(corpus, b, c, v);
    assert |OtEntries(corpus)| + |NtEntries(corpus)| + |BomEntries(corpus)| + |DcEntries(corpus)| ==
      |IndexBuilder.OtEntries(corpus)| + |IndexBuilder.NtEntries(corpus)| +
      |IndexBuilder.BomEntries(corpus)| + |IndexBuilder.DcEntries(corpus)|;
    IndexBuilder.PogpVerseId(corpus, b, c, v);
  }

}
