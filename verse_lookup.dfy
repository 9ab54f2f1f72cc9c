/**
 * What the query engine does with a verse path (client/src/lib.rs
 * make_link, resolve_verse_path, check_collection_searchable): render the
 * verse's URL on the church's scripture site, fetch the verse from the
 * corpus, and decide whether the user's preferences admit it.
 *
 * An index past the end of a book or section list panics in the source;
 * here it gives None.
 */
module VerseLookup {
  import opened Base
  import opened Text
  import opened Scripture
  import opened Preferences
  import IndexBuilder
  import LegacyIndexBuilder

  const BASE_URL: string := "https://www.churchofjesuschrist.org/study/scriptures"

  /** The query string only Pearl of Great Price links carry. */
  const POGP_QUERY: string := "?lang=eng"

  // ---------------------------------------------------------------------------
  // make_link
  // ---------------------------------------------------------------------------

  /** "c+1.v+1": chapter and verse numbers rendered one-based. */
  function ChapterVerse(c: nat, v: nat): (s: string)
    ensures s != [] && '0' <= s[|s| - 1] <= '9'
  {
    var vs := DecimalString(v + 1);
    assert vs[|vs| - 1] in vs;
    DecimalString(c + 1) + "." + vs
  }

  /** The slug of a verse of a books collection, if the book index exists. */
  function BookSlug(coll: BooksCollection, b: nat, c: nat, v: nat): (s: Option<string>)
    ensures s.Some? <==> b < |coll.books|
    ensures s.Some? ==> s.value != [] && '0' <= s.value[|s.value| - 1] <= '9'
  {
    if b < |coll.books| then Some(coll.ldsSlug + "/" + coll.books[b].ldsSlug + "/" + ChapterVerse(c, v)) else None
  }

  /** The books collection a non-D&C path points into. */
  function CollectionOf(corpus: Corpus, path: VersePath): BooksCollection
    requires !path.PathDC?
  {
    match path
    case PathOT(_, _, _) => corpus.ot
    case PathNT(_, _, _) => corpus.nt
    case PathBoM(_, _, _) => corpus.bom
    case PathPOGP(_, _, _) => corpus.pogp
  }

  /** make_link: BASE_URL, "/", then the collection slug, the book slug (not
      for the D&C) and "chapter.verse" one-based; PoGP links end with
      "?lang=eng". The link exists unless the book index is out of range; a
      link ends with "?lang=eng" exactly when the path is a PoGP path. */
  function MakeLink(corpus: Corpus, path: VersePath): (link: Option<string>)
    ensures link.Some? <==> path.PathDC? || path.book < |CollectionOf(corpus, path).books|
    ensures link.Some? ==> |BASE_URL| + 1 < |link.value| && link.value[..|BASE_URL| + 1] == BASE_URL + "/"
    ensures link.Some? ==> (EndsWith(link.value, POGP_QUERY) <==> path.PathPOGP?)
  {
    var slug: Option<string> := match path
      case PathOT(b, c, v) => BookSlug(corpus.ot, b, c, v)
      case PathNT(b, c, v) => BookSlug(corpus.nt, b, c, v)
      case PathBoM(b, c, v) => BookSlug(corpus.bom, b, c, v)
      case PathDC(s, v) => Some(corpus.dc.ldsSlug + "/" + ChapterVerse(s, v))
      case PathPOGP(b, c, v) =>
        match BookSlug(corpus.pogp, b, c, v)
        case None => None
        case Some(s) => Some(s + POGP_QUERY);
    match slug
    case None => None
    case Some(s) =>
      var link := BASE_URL + "/" + s;
      assert link[..|BASE_URL| + 1] == BASE_URL + "/";
      assert link[|link| - 1] == s[|s| - 1];
      Some(link)
  }

  // ---------------------------------------------------------------------------
  // resolve_verse_path
  // ---------------------------------------------------------------------------

  function ResolveInBooks(books: seq<Book>, b: nat, c: nat, v: nat): (r: Option<Verse>)
    ensures r.Some? <==> b < |books| && c < |books[b].chapters| && v < |books[b].chapters[c].verses|
    ensures r.Some? ==> r.value == books[b].chapters[c].verses[v]
  {
    if b < |books| && c < |books[b].chapters| && v < |books[b].chapters[c].verses| then
      Some(books[b].chapters[c].verses[v])
    else None
  }


  /** The link spells the stored zero-based position one-based: chapter and
      verse each plus one, in decimal, after the collection's and the book's
      slugs; a PoGP link then ends with "?lang=eng". */
  lemma {:induction false} BookLinkOneBased(corpus: Corpus, path: VersePath)
    requires !path.PathDC? && path.book < |CollectionOf(corpus, path).books|
    ensures var coll := CollectionOf(corpus, path);
      MakeLink(corpus, path) == Some(BASE_URL + "/" + coll.ldsSlug + "/" + coll.books[path.book].ldsSlug + "/" +
        DecimalString(path.chapter + 1) + "." + DecimalString(path.verse + 1) + (if path.PathPOGP? then POGP_QUERY else ""))
  {
    var coll := CollectionOf(corpus, path);
    var slug := BookSlug(coll, path.book, path.chapter, path.verse).value;
    if path.PathPOGP? {
      BookLinkSpelled(coll, path.book, path.chapter, path.verse, POGP_QUERY);
    } else {
      BookLinkSpelled(coll, path.book, path.chapter, path.verse, "");
      assert slug + "" == slug;
    }
  }

  /** The D&C link spells the stored zero-based section and verse one-based,
      after the collection's slug. */
  lemma {:induction false} DcLinkOneBased(corpus: Corpus, s: nat, v: nat)
    ensures MakeLink(corpus, PathDC(s, v)) ==
      Some(BASE_URL + "/" + corpus.dc.ldsSlug + "/" + DecimalString(s + 1) + "." + DecimalString(v + 1))
  {
    assert BASE_URL + "/" + (corpus.dc.ldsSlug + "/" + ChapterVerse(s, v)) ==
      BASE_URL + "/" + corpus.dc.ldsSlug + "/" + DecimalString(s + 1) + "." + DecimalString(v + 1);
  }

  lemma {:induction false} BookLinkSpelled(coll: BooksCollection, b: nat, c: nat, v: nat, tail: string)
    requires b < |coll.books|
    ensures BASE_URL + "/" + (BookSlug(coll, b, c, v).value + tail) ==
      BASE_URL + "/" + coll.ldsSlug + "/" + coll.books[b].ldsSlug + "/" + DecimalString(c + 1) + "." + DecimalString(v + 1) + tail
  {
  }
  /** resolve_verse_path: the verse a path points at, by position. */
  function ResolveVersePath(corpus: Corpus, path: VersePath): (r: Option<Verse>)
    ensures path.PathDC? ==> (r.Some? <==> path.section < |corpus.dc.sections| && path.verse < |corpus.dc.sections[path.section].verses|)
    ensures path.PathDC? && r.Some? ==> r.value == corpus.dc.sections[path.section].verses[path.verse]
    ensures !path.PathDC? ==> r == ResolveInBooks(CollectionOf(corpus, path).books, path.book, path.chapter, path.verse)
  {
    match path
    case PathOT(b, c, v) => ResolveInBooks(corpus.ot.books, b, c, v)
    case PathNT(b, c, v) => ResolveInBooks(corpus.nt.books, b, c, v)
    case PathBoM(b, c, v) => ResolveInBooks(corpus.bom.books, b, c, v)
    case PathDC(s, v) =>
      if s < |corpus.dc.sections| && v < |corpus.dc.sections[s].verses| then Some(corpus.dc.sections[s].verses[v]) else None
    case PathPOGP(b, c, v) => ResolveInBooks(corpus.pogp.books, b, c, v)
  }

  /** Chapters and verses are numbered 1, 2, ... in the order they are stored. */
  ghost predicate NumberedInOrder(books: seq<Book>)
  {
    forall b | 0 <= b < |books| :: ChaptersInOrder(books[b].chapters)
  }

  ghost predicate ChaptersInOrder(chapters: seq<Chapter>)
  {
    forall c | 0 <= c < |chapters| :: chapters[c].chapter == c + 1 && VersesInOrder(chapters[c].verses)
  }

  ghost predicate VersesInOrder(verses: seq<Verse>)
  {
    forall v | 0 <= v < |verses| :: verses[v].verse == v + 1
  }

  /** The path the builder gives a verse of a books collection leads back to
      that verse and to its one-based chapter and verse numbers in the link,
      when there are at most 256 books and chapters and verses are numbered
      in order. */
  lemma {:induction false} BuiltPathResolves(corpus: Corpus, coll: IndexBuilder.Collection, books: seq<Book>, b: nat, c: nat, v: nat)
    requires CollectionOf(corpus, IndexBuilder.BookPath(coll, 0, 0, 0)).books == books
    requires IndexBuilder.ChaptersNumbered(books) && IndexBuilder.VersesNumbered(IndexBuilder.PrepareBookPaths(books))
    requires |books| <= 256 && NumberedInOrder(books)
    requires b < |books| && c < |books[b].chapters| && v < |books[b].chapters[c].verses|
    ensures var i := IndexBuilder.BooksVerseCount(books[..b]) + IndexBuilder.VerseCount(books[b].chapters[..c]) + v;
      var entries := IndexBuilder.BookPathEntries(coll, IndexBuilder.PrepareBookPaths(books));
      i < |entries| &&
      ResolveInBooks(books, entries[i].0.book, entries[i].0.chapter, entries[i].0.verse) == Some(books[b].chapters[c].verses[v]) &&
      ResolveVersePath(corpus, entries[i].0) == Some(books[b].chapters[c].verses[v]) &&
      MakeLink(corpus, entries[i].0) ==
        Some(BASE_URL + "/" + CollectionOf(corpus, entries[i].0).ldsSlug + "/" + books[b].ldsSlug + "/" +
          DecimalString(books[b].chapters[c].chapter) + "." + DecimalString(books[b].chapters[c].verses[v].verse) +
          (if coll == IndexBuilder.PoGP then POGP_QUERY else ""))
  {
    IndexBuilder.BookPathEntryAt(coll, books, b, c, v);
    assert ChaptersInOrder(books[b].chapters);
    assert VersesInOrder(books[b].chapters[c].verses);
    var i := IndexBuilder.BooksVerseCount(books[..b]) + IndexBuilder.VerseCount(books[b].chapters[..c]) + v;
    var path := IndexBuilder.BookPathEntries(coll, IndexBuilder.PrepareBookPaths(books))[i].0;
    assert path == IndexBuilder.BookPath(coll, b, c, v);
    assert CollectionOf(corpus, path).books == books;
    BookLinkOneBased(corpus, path);
  }

  /** What a Pearl of Great Price path leads to, in a corpus whose chapters
      are numbered in order: the verse at the path's position, and a link
      naming the chapter's number and verse number w + 1. */
  lemma {:induction false} PogpPathLeadsTo(corpus: Corpus, b: nat, c: nat, w: nat)
    requires b < |corpus.pogp.books| && c < |corpus.pogp.books[b].chapters|
    requires ChaptersInOrder(corpus.pogp.books[b].chapters)
    ensures var books := corpus.pogp.books;
      var verses := books[b].chapters[c].verses;
      ResolveVersePath(corpus, PathPOGP(b, c, w)) == (if w < |verses| then Some(verses[w]) else None) &&
      MakeLink(corpus, PathPOGP(b, c, w)) ==
        Some(BASE_URL + "/" + corpus.pogp.ldsSlug + "/" + books[b].ldsSlug + "/" +
          DecimalString(books[b].chapters[c].chapter) + "." + DecimalString(w + 1) + POGP_QUERY)
  {
    var books := corpus.pogp.books;
    assert books[b].chapters[c].chapter == c + 1;
    var slug := corpus.pogp.ldsSlug + "/" + books[b].ldsSlug + "/" + ChapterVerse(c, w);
    assert BookSlug(corpus.pogp, b, c, w) == Some(slug);
    assert BASE_URL + "/" + (slug + POGP_QUERY) ==
      BASE_URL + "/" + corpus.pogp.ldsSlug + "/" + books[b].ldsSlug + "/" +
        DecimalString(c + 1) + "." + DecimalString(w + 1) + POGP_QUERY;
  }

  /** The Pearl of Great Price path the current builder stores for a verse
      resolves to that verse, and its link carries the verse's own number. */
  lemma {:induction false} PogpPathResolves(corpus: Corpus, b: nat, c: nat, v: nat)
    requires IndexBuilder.Indexable(corpus)
    requires |corpus.pogp.books| <= 256 && NumberedInOrder(corpus.pogp.books)
    requires b < |corpus.pogp.books| && c < |corpus.pogp.books[b].chapters| && v < |corpus.pogp.books[b].chapters[c].verses|
    ensures var books := corpus.pogp.books;
      var before := |IndexBuilder.OtEntries(corpus)| + |IndexBuilder.NtEntries(corpus)| +
        |IndexBuilder.BomEntries(corpus)| + |IndexBuilder.DcEntries(corpus)|;
      var id := before + IndexBuilder.BooksVerseCount(books[..b]) + IndexBuilder.VerseCount(books[b].chapters[..c]) + v + 1;
      var verse := books[b].chapters[c].verses[v];
      id <= |IndexBuilder.AllEntries(corpus)| &&
      ResolveVersePath(corpus, IndexBuilder.AllEntries(corpus)[id - 1].0) == Some(verse) &&
      MakeLink(corpus, IndexBuilder.AllEntries(corpus)[id - 1].0) ==
        Some(BASE_URL + "/" + corpus.pogp.ldsSlug + "/" + books[b].ldsSlug + "/" +
          DecimalString(books[b].chapters[c].chapter) + "." + DecimalString(verse.verse) + POGP_QUERY)
  {
    var books := corpus.pogp.books;
    var before := |IndexBuilder.OtEntries(corpus)| + |IndexBuilder.NtEntries(corpus)| +
      |IndexBuilder.BomEntries(corpus)| + |IndexBuilder.DcEntries(corpus)|;
    var id := before + IndexBuilder.BooksVerseCount(books[..b]) + IndexBuilder.VerseCount(books[b].chapters[..c]) + v + 1;
    IndexBuilder.PogpVerseId(corpus, b, c, v);
    assert ChaptersInOrder(books[b].chapters);
    assert books[b].chapters[c].verses[v].verse == v + 1 by {
      assert VersesInOrder(books[b].chapters[c].verses);
    }
    assert IndexBuilder.AllEntries(corpus)[id - 1].0 == PathPOGP(b, c, v);
    PogpPathLeadsTo(corpus, b, c, v);
  }

  /** As written, the older builder's Pearl of Great Price path for verse v
      (zero-based) resolves to the verse after it, or to nothing for the
      last verse of a chapter, and its link names the next verse's number. */
  lemma {:induction false} LegacyPogpPathResolvesToNextVerse(corpus: Corpus, b: nat, c: nat, v: nat)
    requires LegacyIndexBuilder.Indexable(corpus)
    requires NumberedInOrder(corpus.pogp.books)
    requires b < |corpus.pogp.books| && c < |corpus.pogp.books[b].chapters| && v < |corpus.pogp.books[b].chapters[c].verses|
    ensures var books := corpus.pogp.books;
      var verses := books[b].chapters[c].verses;
      var before := |LegacyIndexBuilder.OtEntries(corpus)| + |LegacyIndexBuilder.NtEntries(corpus)| +
        |LegacyIndexBuilder.BomEntries(corpus)| + |LegacyIndexBuilder.DcEntries(corpus)|;
      var id := before + IndexBuilder.BooksVerseCount(books[..b]) + IndexBuilder.VerseCount(books[b].chapters[..c]) + v + 1;
      id <= |LegacyIndexBuilder.AllEntries(corpus)| &&
      ResolveVersePath(corpus, LegacyIndexBuilder.AllEntries(corpus)[id - 1].0) ==
        (if v + 1 < |verses| then Some(verses[v + 1]) else None) &&
      MakeLink(corpus, LegacyIndexBuilder.AllEntries(corpus)[id - 1].0) ==
        Some(BASE_URL + "/" + corpus.pogp.ldsSlug + "/" + books[b].ldsSlug + "/" +
          DecimalString(books[b].chapters[c].chapter) + "." + DecimalString(verses[v].verse + 1) + POGP_QUERY)
  {
    var books := corpus.pogp.books;
    var before := |LegacyIndexBuilder.OtEntries(corpus)| + |LegacyIndexBuilder.NtEntries(corpus)| +
      |LegacyIndexBuilder.BomEntries(corpus)| + |LegacyIndexBuilder.DcEntries(corpus)|;
    var i := IndexBuilder.BooksVerseCount(books[..b]) + IndexBuilder.VerseCount(books[b].chapters[..c]) + v;
    LegacyIndexBuilder.PogpVerseId(corpus, b, c, v);
    assert ChaptersInOrder(books[b].chapters);
    assert books[b].chapters[c].verses[v].verse == v + 1 by {
      assert VersesInOrder(books[b].chapters[c].verses);
    }
    assert LegacyIndexBuilder.AllEntries(corpus)[before + i].0 == PathPOGP(b, c, v + 1);
    PogpPathLeadsTo(corpus, b, c, v + 1);
  }

  // ---------------------------------------------------------------------------
  // check_collection_searchable
  // ---------------------------------------------------------------------------

  /** Whether the book at index `b` is named in `allowed`; None when there is
      no such book. */
  function BookAllowed(coll: BooksCollection, b: nat, allowed: seq<string>): (r: Option<bool>)
    ensures r.Some? <==> b < |coll.books|
    ensures r == Some(true) <==> b < |coll.books| && coll.books[b].book in allowed
  {
    if b < |coll.books| then Some(coll.books[b].book in allowed) else None
  }

  /** The collection a path belongs to. */
  function SourceOf(path: VersePath): Source
  {
    match path
    case PathOT(_, _, _) => OtSource
    case PathNT(_, _, _) => NtSource
    case PathBoM(_, _, _) => BomSource
    case PathDC(_, _) => DcSource
    case PathPOGP(_, _, _) => PogpSource
  }

  /** check_collection_searchable with the D&C filter reading the range as
      section numbers, as the preferences screen offers it (1 to 138): the
      stored zero-based section index s stands for section s + 1. The
      collection must be enabled; a disabled collection is rejected before
      its book list is looked at. */
  function CheckCollectionSearchable(corpus: Corpus, p: SearchPreferences, path: VersePath): (r: Option<bool>)
    ensures !Included(p.includedSources, SourceOf(path)) ==> r == Some(false)
    ensures path.PathDC? ==> r == Some(p.includedSources.dc && p.includedBooks.dc.0 <= path.section + 1 <= p.includedBooks.dc.1)
    ensures !path.PathDC? && Included(p.includedSources, SourceOf(path)) ==>
      r == BookAllowed(CollectionOf(corpus, path), path.book, AllowList(p.includedBooks, SourceOf(path)))
  {
    var sources, books := p.includedSources, p.includedBooks;
    match path
    case PathOT(b, _, _) => if !sources.ot then Some(false) else BookAllowed(corpus.ot, b, books.ot)
    case PathNT(b, _, _) => if !sources.nt then Some(false) else BookAllowed(corpus.nt, b, books.nt)
    case PathBoM(b, _, _) => if !sources.bom then Some(false) else BookAllowed(corpus.bom, b, books.bom)
    case PathDC(s, _) => Some(sources.dc && books.dc.0 <= s + 1 <= books.dc.1)
    case PathPOGP(b, _, _) => if !sources.pogp then Some(false) else BookAllowed(corpus.pogp, b, books.pogp)
  }

  /** The book names allowed for a books collection. */
  function AllowList(books: IncludedBooks, src: Source): seq<string>
  {
    match src
    case OtSource => books.ot
    case NtSource => books.nt
    case BomSource => books.bom
    case DcSource => []
    case PogpSource => books.pogp
  }

  /** check_collection_searchable as written: the D&C range is compared with
      the zero-based section index itself. */
  function CheckCollectionSearchableAsWritten(corpus: Corpus, p: SearchPreferences, path: VersePath): (r: Option<bool>)
    ensures path.PathDC? ==> r == Some(p.includedSources.dc && p.includedBooks.dc.0 <= path.section <= p.includedBooks.dc.1)
    ensures !path.PathDC? ==> r == CheckCollectionSearchable(corpus, p, path)
  {
    match path
    case PathDC(s, _) => Some(p.includedSources.dc && p.includedBooks.dc.0 <= s <= p.includedBooks.dc.1)
    case _ => CheckCollectionSearchable(corpus, p, path)
  }

  /** Which D&C test a search applies: the one as written, or the corrected
      one that reads the range as section numbers. */
  datatype DcFilter = AsWritten | Corrected

  /** check_collection_searchable with the chosen D&C test; the two tests
      agree on every path outside the D&C. */
  function Searchable(filter: DcFilter, corpus: Corpus, p: SearchPreferences, path: VersePath): (r: Option<bool>)
    ensures !path.PathDC? ==> r == CheckCollectionSearchable(corpus, p, path)
    ensures path.PathDC? ==> r == Some(p.includedSources.dc &&
      p.includedBooks.dc.0 <= (if filter == Corrected then path.section + 1 else path.section) <= p.includedBooks.dc.1)
  {
    match filter
    case AsWritten => CheckCollectionSearchableAsWritten(corpus, p, path)
    case Corrected => CheckCollectionSearchable(corpus, p, path)
  }

  /** The D&C path the builder stores for section number n (at most 256)
      passes the corrected filter exactly when n lies in the chosen range,
      and the filter as written exactly when n - 1 does. */
  lemma {:induction false} DcFilterBySectionNumber(corpus: Corpus, p: SearchPreferences, n: nat, v: nat)
    requires 1 <= n <= 256
    ensures CheckCollectionSearchable(corpus, p, PathDC(IndexBuilder.AsU8(n - 1), v)) ==
      Some(p.includedSources.dc && p.includedBooks.dc.0 <= n <= p.includedBooks.dc.1)
    ensures CheckCollectionSearchableAsWritten(corpus, p, PathDC(IndexBuilder.AsU8(n - 1), v)) ==
      Some(p.includedSources.dc && p.includedBooks.dc.0 <= n - 1 <= p.includedBooks.dc.1)
  {
  }

  /** With the D&C enabled and its range set to all of 1..138, section 1 is
      never searchable as written, while every section is searchable with
      the corrected filter. */
  lemma {:induction false} DcSectionOneExcluded(corpus: Corpus, p: SearchPreferences, n: nat, v: nat)
    requires p.includedSources.dc && p.includedBooks.dc == (1, 138)
    requires 1 <= n <= 138
    ensures CheckCollectionSearchableAsWritten(corpus, p, PathDC(IndexBuilder.AsU8(n - 1), v)) == Some(n != 1)
    ensures CheckCollectionSearchable(corpus, p, PathDC(IndexBuilder.AsU8(n - 1), v)) == Some(true)
  {
    DcFilterBySectionNumber(corpus, p, n, v);
  }
}
