/**
 * The query engine's search preferences (client/src/preferences.rs): which
 * collections are searched, which books of each (by name) or which range of
 * Doctrine and Covenants sections, and the guard that decides whether a
 * search can find anything at all.
 */
module Preferences {

  /** A `u8` value. */
  type U8 = n: nat | n < 256

  datatype IncludedSources = IncludedSources(ot: bool, nt: bool, bom: bool, dc: bool, pogp: bool)

  /** Book names allowed per collection; for the D&C a (first, last) range. */
  datatype IncludedBooks = IncludedBooks(
    ot: seq<string>,
    nt: seq<string>,
    bom: seq<string>,
    dc: (U8, U8),
    pogp: seq<string>)

  datatype SearchPreferences = SearchPreferences(
    and: bool,
    caseSensitive: bool,
    exact: bool,
    includedSources: IncludedSources,
    includedBooks: IncludedBooks)

  /** The five collections, to speak about "some collection". */
  datatype Source = OtSource | NtSource | BomSource | DcSource | PogpSource

  function Included(sources: IncludedSources, src: Source): bool
  {
    match src
    case OtSource => sources.ot
    case NtSource => sources.nt
    case BomSource => sources.bom
    case DcSource => sources.dc
    case PogpSource => sources.pogp
  }

  /** The allow-list of `src` selects something: a nonempty book list, or a
      D&C range whose end lies strictly after its start. */
  function Selects(books: IncludedBooks, src: Source): bool
  {
    match src
    case OtSource => books.ot != []
    case NtSource => books.nt != []
    case BomSource => books.bom != []
    case DcSource => books.dc.1 > books.dc.0
    case PogpSource => books.pogp != []
  }

  /** make_empty_preferences: every collection on, one book each, D&C 1 to 20. */
  function MakeEmptyPreferences(): (p: SearchPreferences)
    ensures forall src :: Included(p.includedSources, src) && Selects(p.includedBooks, src)
  {
    SearchPreferences(
      false, true, false,
      IncludedSources(true, true, true, true, true),
      IncludedBooks(["Genesis"], ["Matthew"], ["1 Nephi"], (1, 20), ["Abraham"]))
  }

  /** check_can_search: a search can run when the query is nonempty and some
      enabled collection selects something. */
  function CheckCanSearch(search: string, p: SearchPreferences): (r: bool)
    ensures r <==> search != [] && exists src :: Included(p.includedSources, src) && Selects(p.includedBooks, src)
  {
    if search == [] then false
    else
      var sources := p.includedSources;
      if !sources.ot && !sources.nt && !sources.bom && !sources.dc && !sources.pogp then false
      else
        var books := p.includedBooks;
        assert Included(sources, OtSource) && Selects(books, OtSource) <==> sources.ot && books.ot != [];
        assert Included(sources, NtSource) && Selects(books, NtSource) <==> sources.nt && books.nt != [];
        assert Included(sources, BomSource) && Selects(books, BomSource) <==> sources.bom && books.bom != [];
        assert Included(sources, DcSource) && Selects(books, DcSource) <==> sources.dc && books.dc.1 > books.dc.0;
        assert Included(sources, PogpSource) && Selects(books, PogpSource) <==> sources.pogp && books.pogp != [];
        (sources.ot && books.ot != []) ||
        (sources.nt && books.nt != []) ||
        (sources.bom && books.bom != []) ||
        (sources.dc && books.dc.1 > books.dc.0) ||
        (sources.pogp && books.pogp != [])
  }

  /** With no collection enabled nothing can be searched. */
  lemma {:induction false} NoSourcesNoSearch(search: string, p: SearchPreferences)
    requires p.includedSources == IncludedSources(false, false, false, false, false)
    ensures !CheckCanSearch(search, p)
  {
  }

  /** A D&C range whose two ends are equal, such as (1, 1), selects nothing
      on its own: with every book list empty the search cannot run. */
  lemma {:induction false} EqualDcBoundsSelectNothing(search: string, p: SearchPreferences)
    requires p.includedBooks.dc.0 == p.includedBooks.dc.1
    requires p.includedBooks.ot == [] && p.includedBooks.nt == [] && p.includedBooks.bom == [] && p.includedBooks.pogp == []
    ensures !CheckCanSearch(search, p)
  {
    assert forall src :: !Selects(p.includedBooks, src);
  }

  /** `q` enables every collection `p` enables, allows every book `p` allows
      and a D&C range at least as wide. */
  ghost predicate Widens(p: SearchPreferences, q: SearchPreferences)
  {
    (forall src :: Included(p.includedSources, src) ==> Included(q.includedSources, src)) &&
    (forall b | b in p.includedBooks.ot :: b in q.includedBooks.ot) &&
    (forall b | b in p.includedBooks.nt :: b in q.includedBooks.nt) &&
    (forall b | b in p.includedBooks.bom :: b in q.includedBooks.bom) &&
    (forall b | b in p.includedBooks.pogp :: b in q.includedBooks.pogp) &&
    q.includedBooks.dc.0 <= p.includedBooks.dc.0 && p.includedBooks.dc.1 <= q.includedBooks.dc.1
  }

  /** Enabling collections or allowing more books never stops a search. */
  lemma {:induction false} CheckCanSearchMonotone(search: string, p: SearchPreferences, q: SearchPreferences)
    requires Widens(p, q) && CheckCanSearch(search, p)
    ensures CheckCanSearch(search, q)
  {
    var src :| Included(p.includedSources, src) && Selects(p.includedBooks, src);
    assert Included(q.includedSources, src) && Selects(q.includedBooks, src) by {
      match src
      case OtSource => assert p.includedBooks.ot[0] in q.includedBooks.ot;
      case NtSource => assert p.includedBooks.nt[0] in q.includedBooks.nt;
      case BomSource => assert p.includedBooks.bom[0] in q.includedBooks.bom;
      case DcSource =>
      case PogpSource => assert p.includedBooks.pogp[0] in q.includedBooks.pogp;
    }
  }

  /** The default preferences let every nonempty query run. */
  lemma {:induction false} EmptyPreferencesSearch(search: string)
    requires search != []
    ensures CheckCanSearch(search, MakeEmptyPreferences())
  {
    assert Included(MakeEmptyPreferences().includedSources, OtSource);
  }
}
