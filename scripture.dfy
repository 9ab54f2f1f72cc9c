/**
 * The corpus and index data model (scripture-types/src/lib.rs, in the shape
 * data-bundler/src/lib.rs uses): the five collections, the coordinates that
 * locate a verse, the two maps the bundler produces and the reverse map the
 * query engine derives from them.
 */
module Scripture {

  /** Where a verse lives: book, chapter and verse indices (all zero-based in
      the index the bundler writes), or section and verse for the Doctrine and
      Covenants. Equality is structural, so a path can key a map. */
  datatype VersePath =
    | PathBoM(book: nat, chapter: nat, verse: nat)
    | PathOT(book: nat, chapter: nat, verse: nat)
    | PathNT(book: nat, chapter: nat, verse: nat)
    | PathPOGP(book: nat, chapter: nat, verse: nat)
    | PathDC(section: nat, verse: nat)

  /** The fields of a verse that indexing and rendering read; headings,
      pilcrows and notes are not modelled. */
  datatype Verse = Verse(reference: string, text: string, verse: nat)

  datatype Chapter = Chapter(chapter: nat, verses: seq<Verse>)

  datatype Book = Book(book: string, ldsSlug: string, chapters: seq<Chapter>)

  datatype Section = Section(section: nat, verses: seq<Verse>)

  /** The Old and New Testaments, the Book of Mormon and the Pearl of Great
      Price share this shape: a title, a URL slug and a list of books. */
  datatype BooksCollection = BooksCollection(title: string, ldsSlug: string, books: seq<Book>)

  datatype DoctrineAndCovenants = DoctrineAndCovenants(title: string, ldsSlug: string, sections: seq<Section>)

  datatype Corpus = Corpus(
    ot: BooksCollection,
    nt: BooksCollection,
    bom: BooksCollection,
    dc: DoctrineAndCovenants,
    pogp: BooksCollection)

  /** Scripture ids are u16 values handed out from 1 upwards. */
  const MAX_ID: nat := 0xFFFF

  /** An occurrence of a word in a verse: its start offset and its length. */
  type Span = (nat, nat)

  /** stem -> scripture id -> occurrences of that stem in that verse, in text order. */
  type WordsIndex = map<string, map<nat, seq<Span>>>

  /** scripture id -> where the verse lives. */
  type PathsIndex = map<nat, VersePath>

  /** verse path -> scripture id: the sort key of search results. */
  type VersePathsIndex = map<VersePath, nat>

  /** The occurrences stored for `stem` in verse `id` (none when either key is missing). */
  function Lookup(words: WordsIndex, stem: string, id: nat): seq<Span>
  {
    if stem in words && id in words[stem] then words[stem][id] else []
  }

  /** No stem is stored with an empty bucket and no id with an empty list. */
  ghost predicate NoEmptyEntries(words: WordsIndex)
  {
    forall stem | stem in words :: words[stem] != map[] && forall id | id in words[stem] :: words[stem][id] != []
  }

  /**
   * paths_to_verse_paths_index: fold the paths map, in its iteration order
   * `order`, into a map from each path to the id that carried it. Every key
   * the fold visits overwrites what an earlier key with the same path wrote.
   */
  function InvertPaths(paths: PathsIndex, order: seq<nat>): (r: VersePathsIndex)
    requires forall i :: 0 <= i < |order| ==> order[i] in paths
    ensures r.Keys == set i | 0 <= i < |order| :: paths[order[i]]
    ensures forall v | v in r :: r[v] in order && paths[r[v]] == v
  {
    if order == [] then map[]
    else
      var front := order[..|order| - 1];
      var k := order[|order| - 1];
      var r := InvertPaths(paths, front)[paths[k] := k];
      assert forall i :: 0 <= i < |front| ==> front[i] == order[i];
      r
  }

  /** An iteration order of a map visits each of its keys exactly once. */
  ghost predicate IsIterationOrder(paths: PathsIndex, order: seq<nat>)
  {
    (forall i :: 0 <= i < |order| ==> order[i] in paths) &&
    (forall k | k in paths :: k in order) &&
    (forall i, j :: 0 <= i < j < |order| ==> order[i] != order[j])
  }

  ghost predicate Injective(paths: PathsIndex)
  {
    forall a, b | a in paths && b in paths && a != b :: paths[a] != paths[b]
  }

  /** The keys of the reverse map are exactly the paths that occur as values. */
  lemma {:induction false} InvertPathsKeys(paths: PathsIndex, order: seq<nat>)
    requires IsIterationOrder(paths, order)
    ensures InvertPaths(paths, order).Keys == paths.Values
  {
    var r := InvertPaths(paths, order);
    forall v | v in paths.Values ensures v in r {
      var k :| k in paths && paths[k] == v;
      var i :| 0 <= i < |order| && order[i] == k;
    }
  }

  /** When no two ids share a path, the reverse map undoes the paths map and
      the two have the same size, whatever the iteration order. */
  lemma {:induction false} InvertPathsInjective(paths: PathsIndex, order: seq<nat>)
    requires IsIterationOrder(paths, order) && Injective(paths)
    ensures forall k | k in paths :: paths[k] in InvertPaths(paths, order) && InvertPaths(paths, order)[paths[k]] == k
    ensures |InvertPaths(paths, order)| == |paths|
  {
    var r := InvertPaths(paths, order);
    InvertPathsKeys(paths, order);
    forall k | k in paths ensures r[paths[k]] == k {
      assert paths[r[paths[k]]] == paths[k];
    }
    MapSizeOfInverse(paths, r);
  }

  lemma {:induction false} MapSizeOfInverse(paths: PathsIndex, r: VersePathsIndex)
    requires r.Keys == paths.Values
    requires forall k | k in paths :: r[paths[k]] == k
    ensures |r| == |paths|
  {
    var valuesOf := r.Values;
    assert valuesOf == paths.Keys by {
      forall k | k in paths ensures k in valuesOf {
        assert r[paths[k]] == k;
      }
      forall k | k in valuesOf ensures k in paths {
        var v :| v in r && r[v] == k;
        var j :| j in paths && paths[j] == v;
        assert r[paths[j]] == j;
      }
    }
    InjectiveMapSize(r);
  }

  /** A map whose values are pairwise distinct has as many values as keys. */
  lemma {:induction false} InjectiveMapSize<K, V>(m: map<K, V>)
    requires forall a, b | a in m && b in m && a != b :: m[a] != m[b]
    ensures |m.Values| == |m|
    decreases |m|
  {
    if m != map[] {
      var a :| a in m;
      var rest := m - {a};
      InjectiveMapSize(rest);
      forall v | v in m.Values ensures v in rest.Values + {m[a]} {
        var b :| b in m && m[b] == v;
        if b != a {
          assert rest[b] == v;
        }
      }
      forall v | v in rest.Values ensures v in m.Values {
        var b :| b in rest && rest[b] == v;
        assert m[b] == v;
      }
      assert m.Values == rest.Values + {m[a]};
      assert m[a] !in rest.Values;
      assert m.Keys == rest.Keys + {a};
    }
  }

  /** In general the reverse map is no larger than the paths map. */
  lemma {:induction false} InvertPathsSize(paths: PathsIndex, order: seq<nat>)
    requires IsIterationOrder(paths, order)
    ensures |InvertPaths(paths, order)| <= |paths|
  {
    InvertPathsKeys(paths, order);
    ValuesNoMoreThanKeys(paths);
  }

  lemma {:induction false} ValuesNoMoreThanKeys<K, V>(m: map<K, V>)
    ensures |m.Values| <= |m|
    decreases |m|
  {
    if m != map[] {
      var a :| a in m;
      var rest := m - {a};
      ValuesNoMoreThanKeys(rest);
      forall v | v in m.Values ensures v in rest.Values + {m[a]} {
        var b :| b in m && m[b] == v;
        if b != a {
          assert rest[b] == v;
        }
      }
      assert |m.Values| <= |rest.Values + {m[a]}| by {
        SubsetSize(m.Values, rest.Values + {m[a]});
      }
      assert m.Keys == rest.Keys + {a};
    }
  }

  /** When several ids share a path, the reverse map keeps the one the
      iteration visits last. */
  lemma {:induction false} InvertPathsLastWins(paths: PathsIndex, order: seq<nat>, i: nat)
    requires forall j :: 0 <= j < |order| ==> order[j] in paths
    requires i < |order|
    requires forall j :: i < j < |order| ==> paths[order[j]] != paths[order[i]]
    ensures InvertPaths(paths, order)[paths[order[i]]] == order[i]
    decreases |order|
  {
    var n := |order|;
    if i < n - 1 {
      var front := order[..n - 1];
      InvertPathsLastWins(paths, front, i);
    }
  }

  lemma {:induction false} SubsetSize<T>(a: set<T>, b: set<T>)
    requires a <= b
    ensures |a| <= |b|
  {
    assert b == a + (b - a);
  }
}
