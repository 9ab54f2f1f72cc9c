# verily — a Dafny model of the scripture search core

verily searches the standard works of scripture (Old and New Testament, Book
of Mormon, Doctrine and Covenants, Pearl of Great Price) in the browser. Its
search runs on an index that is built ahead of time.

- The data bundler assigns every verse a numeric id and a `VersePath`, the
  position of the verse in its collection. It also builds a words index that
  maps each English stem to the verses using it. Each verse's entry holds the
  places where the word occurs, packed into two integers.
- The WebAssembly client decodes those entries for a query. It intersects the
  buckets, filters them by the user's preferences and renders one HTML line
  per matched verse, with the matched words highlighted.
- The TypeScript front end keeps the preferences, converts them for the
  client, gates short queries and counts clicks to open a chapter preview.

The model covers each of these parts in its source's own form.

- Pure transformations are functions with lemmas about them.
- Loops (the packers and unpackers, the word-range scanner, the index folds,
  the search's fold steps, the `reduce` calls) are methods with loop
  invariants. Each is proved equal to a specification function.
- The click counter, a mutable object in the source, is a class.

| file | module | models |
|---|---|---|
| base.dfy | Base | arithmetic and sequence facts shared by the modules |
| scripture.dfy | Scripture | `VersePath`, the corpus records, the index types, `paths_to_verse_paths_index` |
| text.dfy | Text | Unicode white space, `replace`, `split_whitespace`, decimal rendering |
| codec.dfy | Codec | `pack_lengths`, `unpack_lengths`, `pack_indices`, `pack_indices_arr`, `unpack_indices` |
| tokenizer.dfy | Tokenizer | `get_word_ranges`, `make_splittable`, the query's stem set |
| index_builder.dfy | IndexBuilder | the current `build_index` in the bundler library |
| legacy_builder.dfy | LegacyIndexBuilder | the older `build_index` in the bundler binary |
| search_preferences.dfy | Preferences | `make_empty_preferences`, `check_can_search` |
| verse_lookup.dfy | VerseLookup | `make_link`, `resolve_verse_path`, `check_collection_searchable` |
| highlight.dfy | Highlight | `extract_highlights`, `highlight_matches`, `format_verse` |
| search.dfy | Search | `full_match_search` |
| web_preferences.dfy | WebPreferences | JavaScript values, `mergeConfigs`, `deepSet`, `setPathValue`, `setAll` |
| book_preferences.dfy | BookPreferences | the collection panel: selected count, "all included", sliders, toggles |
| web_app.dfy | WebApp | the conversion to the client's preferences, the search gate, the preview counter |

Three parts of the source are supplied from outside:

- Unicode letter tests, lower-casing and the English stemmer are fields of a
  `TextOps` value, so every result holds for any choice of them.
- Hash-map iteration orders are parameters.
- Browser timers are explicit inputs and outputs.

## Model

| member | source | states |
|---|---|---|
| Codec.PackedBelow | data-bundler/src/lib.rs:82-93 | under the documented chunk bound, no addition of a packing loop carries out of the register |
| Codec.RegistersHoldChunks | data-bundler/src/lib.rs:84-93 | 25 five-bit chunks fit the u128 of `pack_lengths` and 23 eleven-bit chunks fit the U256 of `pack_indices` |
| Codec.PackedDigits | data-bundler/src/lib.rs:84-105 | packing chunks whose first one is nonzero and then reading the base-2^w digits back gives the chunks |
| Codec.PackedAbsorbsLeadingZero | data-bundler/src/lib.rs:87-90 | a leading zero chunk never shifts the accumulator, so it leaves no trace |
| Codec.PackLengths | data-bundler/src/lib.rs:84-93 | the loop computes the packed value, which stays below 2^128 for lengths below 32 |
| Codec.UnpackLengths | data-bundler/src/lib.rs:95-105 | the loop yields the base-32 digits of the packed value, most significant first, each below 32 |
| Codec.Digits | data-bundler/src/lib.rs:99-104 | every digit is below the base, and there are none exactly when the value is 0 |
| Codec.LengthsRoundTrip | data-bundler/src/lib.rs:170-183 | `unpack_lengths(pack_lengths(xs)) == xs` for up to 25 lengths below 32 exactly when `xs` is empty or starts with a nonzero length |
| Codec.LeadingZeroLengthLost | data-bundler/src/lib.rs:87-90 | a zero length at the front packs to the same value as the list without it |
| Codec.Biased | data-bundler/src/lib.rs:117 | each chunk written is the offset plus one |
| Codec.PackIndices | data-bundler/src/lib.rs:110-120 | the loop computes the packed value, which stays below 2^256 for offsets up to 2046 |
| Codec.UnpackIndices | data-bundler/src/lib.rs:152-163 | the loop yields the chunks minus one, most significant first, and fails where a zero chunk makes `chunk - 1` underflow |
| Codec.UnpackedIndicesFromDigits | data-bundler/src/lib.rs:157-162 | a value whose base-2048 digits are all nonzero unpacks to those digits minus one |
| Codec.IndicesRoundTrip | data-bundler/src/lib.rs:174-191 | `unpack_indices(pack_indices(xs)) == xs` for up to 23 offsets in [0, 2046], including the empty list |
| Codec.PackedIndicesZeroIffEmpty | data-bundler/src/lib.rs:113-118 | every chunk is at least 1, so the packed value is 0 exactly for the empty list |
| Codec.PackIndicesArr | data-bundler/src/lib.rs:122-150 | the limbs as written are the low 64 bits of `pack_indices` followed by three zeros |
| Codec.PackIndicesLimbs | data-bundler/src/lib.rs:122-150 | with each limb shifted down after it is taken, the four limbs are the 64-bit words of `pack_indices`, least significant first |
| Codec.PackIndicesArrLosesHighBits | data-bundler/src/lib.rs:134-147 | from 7 offsets on, the as-written limbs no longer stand for the packed value |
| Codec.PackIndicesArrExactForFewOffsets | data-bundler/src/lib.rs:134-147 | up to 5 offsets, the as-written limbs do stand for the packed value |
| Tokenizer.GetWordRanges | data-bundler/src/lib.rs:62-80 | the scan loop returns the ranges of the specification function `WordRanges` |
| Tokenizer.ScanMaintains | data-bundler/src/lib.rs:65-77 | after each character, the emitted ranges are the closed word runs so far, in order, and `open` is the start of the run still open |
| Tokenizer.WordRanges | data-bundler/src/lib.rs:62-80 | `get_word_ranges` as a fold over the characters; its emitted ranges are characterised by `WordRangesShape` and `LastWordDropped` |
| Tokenizer.WordRangesShape | data-bundler/src/lib.rs:62-80 | a range is emitted exactly when it is a maximal run of word characters (alphanumeric, 'æ', '-') followed by a non-word character; ranges are strictly increasing and disjoint |
| Tokenizer.LastWordDropped | data-bundler/src/lib.rs:72-79 | a word that reaches the end of the text is never emitted |
| Tokenizer.KeepVerseChars | client/src/lib.rs:65 | what `RE_VERSE_CHARS.replace_all(_, "")` keeps are characters of the input that the pattern does not match |
| Tokenizer.KeepVerseCharsClean | client/src/lib.rs:65 | the filter leaves clean text alone, so it is idempotent |
| Tokenizer.MakeSplittable | client/src/lib.rs:180-189 | `make_splittable`; what survives it is stated by `MakeSplittableChars` and `SubstitutedHasNoDashes` |
| Tokenizer.MakeSplittableChars | client/src/lib.rs:180-189 | the output holds only letters, digits, whitespace, 'æ' and '-', and only lowercase letters when lowercasing yields no ASCII capital |
| Tokenizer.SubstitutedHasNoDashes | client/src/lib.rs:180-189 | no en or em dash survives the replacements, and no apostrophe survives at all |
| Tokenizer.ReplaceAllChars | client/src/lib.rs:181-185 | a replacement introduces no character that is in neither the text nor the replacement |
| LegacyIndexBuilder.QueryStemsAsVerse | client/src/lib.rs:249-254 | the stems a query looks up are exactly those under which counting a verse whose text is the lowercased query files that verse: query and verse are tokenized alike (`Tokenizer.QueryStems`) |
| Text.ReplaceCharRemovesIt | client/src/lib.rs:182-184 | replacing a character by text without it removes every occurrence |
| Text.ReplaceCharAbsent | client/src/lib.rs:184 | replacing a character that is absent changes nothing, so the repeated em dash replacement is a no-op |
| Text.SplitWhitespace | client/src/lib.rs:251-252 | `split_whitespace` yields nonempty tokens free of whitespace |
| Text.SplitJoin | client/src/lib.rs:251-252 | splitting tokens joined by single spaces gives the tokens back |
| Scripture.InvertPaths | scripture-types/src/lib.rs:16-26 | the reverse map's keys are the paths the fold visits, and each maps to an id that carried it |
| Scripture.InvertPathsKeys | scripture-types/src/lib.rs:16-26 | the reverse map's keys are exactly the paths that occur as values |
| Scripture.InvertPathsInjective | scripture-types/src/lib.rs:16-26 | when no two ids share a path, the reverse map undoes the paths map and has its size, whatever the iteration order |
| Scripture.InvertPathsSize | scripture-types/src/lib.rs:16-26 | the reverse map is never larger than the paths map |
| Scripture.InvertPathsLastWins | scripture-types/src/lib.rs:21-24 | of several ids sharing a path, the reverse map keeps the one the iteration visits last |
| IndexBuilder.AsU8 | data-bundler/src/lib.rs:40 | the `as u8` cast keeps the low eight bits and leaves indices below 256 alone |
| IndexBuilder.ChapterEntries | data-bundler/src/lib.rs:49-53 | one entry per verse of the chapter, carrying the book coordinate and the chapter number minus one |
| IndexBuilder.BookEntries | data-bundler/src/lib.rs:46-57 | a book contributes one entry per verse of its chapters |
| IndexBuilder.PrepareBookPaths | data-bundler/src/lib.rs:27-60 | a collection flattens to one entry per verse |
| IndexBuilder.PrepareBookPathsAt | data-bundler/src/lib.rs:27-60 | verse v of chapter c of book b sits after all verses of earlier books and chapters, with coordinates (b as u8, chapter - 1) |
| IndexBuilder.BookPathEntries | data-bundler/src/lib.rs:250-256 | each path is built from the book and chapter coordinates and the verse number minus one |
| IndexBuilder.SectionPathEntries | data-bundler/src/lib.rs:307-327 | each D&C path is the section coordinate cast to u8 and the verse number minus one |
| IndexBuilder.AllEntries | data-bundler/src/lib.rs:201 | the whole corpus has no more verses than a u16 id can number |
| IndexBuilder.CountWordUsage | data-bundler/src/lib.rs:208-236 | the stem of the lowercased slice becomes a key, and no bucket or list is left empty |
| IndexBuilder.CountWordUsageLookup | data-bundler/src/lib.rs:217-232 | the word's (start, length) is appended to the list of verse `id` under its stem and to no other list |
| IndexBuilder.VerseRanges | data-bundler/src/lib.rs:239-241 | the ranges folded over are `get_word_ranges`' and lie inside the text |
| IndexBuilder.FoldRangesLookup | data-bundler/src/lib.rs:238-243 | the fold appends, for every stem, the verse's occurrences of it to verse `id`'s list and touches no other verse |
| IndexBuilder.CountVerseLookup | data-bundler/src/lib.rs:238-243 | counting a verse appends its occurrences of every stem to its own list only, and keeps every entry nonempty |
| IndexBuilder.IdRange | data-bundler/src/lib.rs:201 | the ids 1..n, n of them |
| IndexBuilder.IndexedPathsSnoc | data-bundler/src/lib.rs:249-257 | indexing one more verse records its path under the next id and changes nothing else |
| IndexBuilder.IndexVerse | data-bundler/src/lib.rs:248-262 | one fold step bumps the id, records the path and counts the verse, matching the specification of the indexed prefix |
| IndexBuilder.IndexCollection | data-bundler/src/lib.rs:246-263 | one collection's fold extends the indexed prefix by the collection's verses |
| IndexBuilder.BuildIndex | data-bundler/src/lib.rs:194-353 | the words and paths maps are those of the five collections indexed in the order OT, NT, BoM, D&C, PoGP |
| IndexBuilder.IndexedWordsLookup | data-bundler/src/lib.rs:208-243 | under every stem, verse j's list is that verse's occurrences of the stem, ids outside 1..N have none, and no entry is empty |
| IndexBuilder.IndexedPathsDense | data-bundler/src/lib.rs:249-250 | the paths map has exactly the keys 1..N, id i holding the path of the i-th verse |
| IndexBuilder.WordsReferToPaths | data-bundler/src/lib.rs:249-259 | every id filed under any stem is a key of the paths map |
| IndexBuilder.OccurrencesInSound | data-bundler/src/lib.rs:215-217 | every reported occurrence is a word range whose stem is the key |
| IndexBuilder.OccurrencesInComplete | data-bundler/src/lib.rs:215-217 | every word range whose stem is the key is reported |
| IndexBuilder.IndexedWordsExact | data-bundler/src/lib.rs:208-243 | (s, l) is listed under stem w for verse j exactly when [s, s+l) is a word run of verse j whose stem is w |
| IndexBuilder.OccurrencesExact | data-bundler/src/lib.rs:62-80 | (s, l) is an occurrence of w in a text exactly when [s, s+l) is a word run of the text whose stem is w |
| IndexBuilder.IndexedWordsAscending | data-bundler/src/lib.rs:229-231 | within one verse's list the occurrences start at strictly increasing offsets |
| IndexBuilder.CollectionBlocks | data-bundler/src/lib.rs:245-350 | each collection occupies one contiguous block of ids, in the order OT, NT, BoM, D&C, PoGP |
| IndexBuilder.BookPathEntryAt | data-bundler/src/lib.rs:27-60 | a verse's entry holds it with the book coordinate, the chapter number minus one and the verse number minus one |
| IndexBuilder.OtVerseId | data-bundler/src/lib.rs:245-263 | an Old Testament verse's id is one plus the number of verses before it, and its path has coordinates one less than its numbers |
| IndexBuilder.PogpVerseId | data-bundler/src/lib.rs:336-350 | a Pearl of Great Price verse's id follows all verses of the other four collections, and its verse coordinate is the verse number minus one |
| IndexBuilder.PogpIdAt | data-bundler/src/lib.rs:336-350 | the same for any four blocks put in front of the Pearl of Great Price entries |
| IndexBuilder.EntryInLastBlock | data-bundler/src/lib.rs:336-350 | an entry of the last block keeps its path and verse after the other four blocks are put in front |
| IndexBuilder.BookEntriesAt | data-bundler/src/lib.rs:46-53 | within a book, verse v of chapter c sits after the verses of the earlier chapters, with the chapter number minus one |
| IndexBuilder.FoldRangesLookupAt | data-bundler/src/lib.rs:238-243 | folding a verse's ranges appends its occurrences of a stem to verse `id`'s list and to no other |
| IndexBuilder.FoldRangesNoEmpty | data-bundler/src/lib.rs:215-233 | the fold never leaves an empty list or bucket |
| IndexBuilder.IndexedWordsSnoc | data-bundler/src/lib.rs:248-262 | indexing one more verse counts it under the next id |
| IndexBuilder.IndexedWordsLookupAt | data-bundler/src/lib.rs:208-243 | under every stem, verse j's list is that verse's occurrences of the stem, and empty for ids not handed out |
| IndexBuilder.IndexedWordsNoEmpty | data-bundler/src/lib.rs:215-233 | the words index holds no empty bucket and no empty list |
| IndexBuilder.OccurrencesInAscending | data-bundler/src/lib.rs:229-231 | occurrences taken from increasing, disjoint ranges start at strictly increasing offsets |
| IndexBuilder.OtEntries | data-bundler/src/lib.rs:245-263 | every Old Testament entry has an OT path |
| IndexBuilder.NtEntries | data-bundler/src/lib.rs:265-283 | every New Testament entry has an NT path |
| IndexBuilder.BomEntries | data-bundler/src/lib.rs:285-303 | every Book of Mormon entry has a BoM path |
| IndexBuilder.DcEntries | data-bundler/src/lib.rs:305-334 | every D&C entry has a D&C path |
| IndexBuilder.PogpEntries | data-bundler/src/lib.rs:336-350 | every Pearl of Great Price entry has a PoGP path |
| LegacyIndexBuilder.OtEntries | data-bundler/src/main.rs:119-137 | every Old Testament entry has an OT path |
| LegacyIndexBuilder.NtEntries | data-bundler/src/main.rs:139-157 | every New Testament entry has an NT path |
| LegacyIndexBuilder.BomEntries | data-bundler/src/main.rs:159-177 | every Book of Mormon entry has a BoM path |
| LegacyIndexBuilder.DcEntries | data-bundler/src/main.rs:179-208 | every D&C entry has a D&C path |
| LegacyIndexBuilder.PogpEntries | data-bundler/src/main.rs:210-224 | every Pearl of Great Price entry has a PoGP path |
| Text.DecimalString | client/src/lib.rs:74 | a number is rendered as a nonempty string of decimal digits |
| Text.ParseDecimalString | client/src/lib.rs:74 | the rendering reads back as the number, so distinct numbers render differently |
| LegacyIndexBuilder.BookPaths | data-bundler/src/main.rs:30-63 | a collection flattens to one entry per verse |
| LegacyIndexBuilder.BookPathsAt | data-bundler/src/main.rs:30-63 | verse v of chapter c of book b sits after all verses of earlier books and chapters, with coordinates (b, chapter - 1) |
| LegacyIndexBuilder.BookPathsAgree | data-bundler/src/main.rs:30-63 | with at most 256 books the legacy flattening equals the current one, whose book coordinate is cast to u8 |
| LegacyIndexBuilder.CountWordUsage | data-bundler/src/main.rs:91-110 | the word's stem becomes a key; verse `id` is added to that stem's set and nothing else is filed or unfiled; no set is left empty |
| LegacyIndexBuilder.CountWordUsageFiled | data-bundler/src/main.rs:97-101 | inserting an id already in the stem's set changes nothing, so a word repeated in a verse files it once |
| LegacyIndexBuilder.CountWordUsageOthers | data-bundler/src/main.rs:94-108 | every other stem keeps its set |
| LegacyIndexBuilder.FoldWordsFiles | data-bundler/src/main.rs:113-115 | folding a verse's words files verse `id` under exactly the stems of those words and no set becomes empty |
| LegacyIndexBuilder.CountVerseFiles | data-bundler/src/main.rs:77-117 | counting a verse files it under exactly the stems of the whitespace-split words of `make_splittable(text)`, the same normalisation the client applies to queries, and touches no other verse |
| LegacyIndexBuilder.BookPathEntries | data-bundler/src/main.rs:124-131 | each path is built from book, chapter coordinate and verse number minus one, except Pearl of Great Price paths, which keep the verse number |
| LegacyIndexBuilder.SectionPathEntries | data-bundler/src/main.rs:181-201 | each D&C path is the section number minus one and the verse number minus one |
| LegacyIndexBuilder.AllEntries | data-bundler/src/main.rs:72 | the whole corpus has no more verses than a u32 id can number |
| LegacyIndexBuilder.IndexedStemsSnoc | data-bundler/src/main.rs:120-136 | indexing one more verse counts it under the next id |
| LegacyIndexBuilder.IndexVerse | data-bundler/src/main.rs:122-136 | one fold step bumps the id, records the path and counts the verse, matching the specification of the indexed prefix |
| LegacyIndexBuilder.IndexCollection | data-bundler/src/main.rs:120-137 | one collection's fold extends the indexed prefix by the collection's verses |
| LegacyIndexBuilder.BuildIndex | data-bundler/src/main.rs:65-227 | the stems and paths maps are those of the five collections indexed in the order OT, NT, BoM, D&C, PoGP |
| LegacyIndexBuilder.IndexedStemsFiles | data-bundler/src/main.rs:65-227 | verse j is filed under stem w exactly when j is an id handed out and w is the stem of one of its words; no set is empty |
| LegacyIndexBuilder.StemsReferToPaths | data-bundler/src/main.rs:123-125 | every id filed under any stem is a key of the paths map |
| LegacyIndexBuilder.CollectionBlocks | data-bundler/src/main.rs:119-224 | each collection occupies one contiguous block of ids, in the order OT, NT, BoM, D&C, PoGP |
| LegacyIndexBuilder.PogpVerseId | data-bundler/src/main.rs:211-224 | a Pearl of Great Price verse's id follows all other verses, and its path keeps the verse number as verse coordinate |
| LegacyIndexBuilder.PogpVerseOffByOne | data-bundler/src/main.rs:217 | for the same verse the legacy path's verse coordinate is one more than the current builder's |
| VerseLookup.ChapterVerse | client/src/lib.rs:74 | the "chapter.verse" part of a link is nonempty and ends in a digit |
| VerseLookup.BookSlug | client/src/lib.rs:73-74 | a slug exists exactly when the book index is in range, and ends in a digit |
| VerseLookup.MakeLink | client/src/lib.rs:68-107 | a link exists exactly when the path's book exists (always for D&C), starts with the base URL and a slash, and ends with "?lang=eng" exactly for Pearl of Great Price paths |
| VerseLookup.BookLinkOneBased | client/src/lib.rs:68-107 | the link of an Old Testament, New Testament, Book of Mormon or Pearl of Great Price path is the base URL, the collection slug, the book slug and chapter + 1 "." verse + 1 in decimal, with "?lang=eng" appended for the Pearl of Great Price |
| VerseLookup.DcLinkOneBased | client/src/lib.rs:88-92 | the link of a D&C path is the base URL, the D&C slug and section + 1 "." verse + 1 in decimal |
| VerseLookup.ResolveInBooks | client/src/lib.rs:196-200 | a verse is found exactly when book, chapter and verse index are in range, and it is the one at those positions |
| VerseLookup.ResolveVersePath | client/src/lib.rs:191-202 | the verse a path names, by position (the D&C verse at section s, verse v), and None exactly when an index is out of range |
| VerseLookup.BuiltPathResolves | client/src/lib.rs:68-107 | a path the current builder stores for a book collection resolves to its own verse, and its link is the base URL, the collection and book slugs and the chapter's and the verse's own numbers |
| VerseLookup.PogpPathLeadsTo | client/src/lib.rs:93-103 | a Pearl of Great Price path with verse coordinate w resolves to position w and links to verse number w + 1 |
| VerseLookup.PogpPathResolves | client/src/lib.rs:93-103 | a Pearl of Great Price path the current builder stores resolves to its own verse, and its link carries the verse's own number |
| VerseLookup.LegacyPogpPathResolvesToNextVerse | data-bundler/src/main.rs:217 | a Pearl of Great Price path the legacy builder stores resolves to the next verse, or to nothing for a chapter's last verse, and links to the next verse number |
| VerseLookup.BookAllowed | client/src/lib.rs:206-217 | a verdict exists exactly when the book index is in range, and is true exactly when the book's name is in the allow list |
| VerseLookup.CheckCollectionSearchable | client/src/lib.rs:204-233 | a path of an excluded collection is not searchable; a D&C path is searchable when its section number lies in the range; other paths when their book is allowed |
| VerseLookup.CheckCollectionSearchableAsWritten | client/src/lib.rs:218-222 | the D&C range is compared with the zero-based section index; all other paths are judged as by the corrected filter |
| VerseLookup.Searchable | client/src/lib.rs:204-233 | the collection filter with either D&C test: the two agree outside the D&C, and a D&C path passes when its section index (as written) or section number (corrected) lies in the range |
| VerseLookup.DcFilterBySectionNumber | client/src/lib.rs:218-222 | for the path the builder stores for section n, the corrected filter tests n against the range and the filter as written tests n - 1 |
| VerseLookup.DcSectionOneExcluded | client/src/lib.rs:218-222 | with the default range 1 - 138 the filter as written drops section 1 and the corrected filter keeps it |
| Preferences.MakeEmptyPreferences | client/src/preferences.rs:40-60 | the defaults enable every collection and each allow-list selects something |
| Preferences.CheckCanSearch | client/src/preferences.rs:62-84 | true exactly when the query is nonempty and some enabled collection has a nonempty book list or a D&C range whose end is past its start |
| Preferences.NoSourcesNoSearch | client/src/preferences.rs:116-139 | with every collection disabled no query can run |
| Preferences.EqualDcBoundsSelectNothing | client/src/preferences.rs:141-164 | a D&C range with equal ends and empty book lists stop every query |
| Preferences.CheckCanSearchMonotone | client/src/preferences.rs:62-84 | enabling collections, allowing books or widening the D&C range never stops a query that could run |
| Preferences.EmptyPreferencesSearch | client/src/preferences.rs:40-84 | the default preferences let every nonempty query run |
| Highlight.ExtractHighlights | client/src/lib.rs:109-111 | spans exist exactly when the offsets unpack, and span i pairs offset i with length i, as many as the shorter list |
| Highlight.ExtractEncoded | client/src/lib.rs:109-111 | unpacking what the bundler packed gives the spans back, for up to 23 spans with in-range offsets and lengths 1 to 31 |
| Highlight.ExtractLosesLeadingZeroLength | client/src/lib.rs:109-111 | a span list whose first length is 0 does not come back |
| Highlight.PackedLengthsDigitsBound | data-bundler/src/lib.rs:84-105 | packing n lengths leaves at most n digits to unpack |
| Highlight.Splice | client/src/lib.rs:117-127 | a splice succeeds exactly when the span ends inside the text, and adds the two tags' length |
| Highlight.HighlightMatches | client/src/lib.rs:113-129 | the loop over the reversed spans computes the reverse fold |
| Highlight.Render | client/src/lib.rs:113-129 | the rendered line is the text plus one pair of tags per span |
| Highlight.Highlighted | client/src/lib.rs:113-129 | `highlight_matches`, last span spliced first; `HighlightMatchesRenders` states that on ascending spans it wraps each span in the match tag and changes nothing else |
| Highlight.HighlightedPrefix | client/src/lib.rs:113-129 | splicing spans inside a prefix never fails and leaves the rest of the text as it was |
| Highlight.FrontBeforeLast | client/src/lib.rs:116 | the spans before the last of ascending spans ascend and end where the last one starts, so splicing from the back keeps their offsets valid |
| Highlight.HighlightMatchesRenders | client/src/lib.rs:113-129 | on ascending spans inside the text, each span is wrapped in the match tag and nothing else changes |
| Highlight.InsertSpan | client/src/lib.rs:137 | inserting into a sorted list keeps it sorted and adds exactly the one span |
| Highlight.SortSpans | client/src/lib.rs:136-137 | the sorted copy is sorted in tuple order and is a permutation of the spans |
| Highlight.SortSpansSorted | client/src/lib.rs:137 | sorting a sorted list gives it back |
| Highlight.AscendingIsSorted | client/src/lib.rs:137 | ascending spans are already in sort order |
| Highlight.FormatVerse | client/src/lib.rs:131-144 | `format_verse`; `FormatVerseRenders` states the line it renders |
| Highlight.FormatVerseRenders | client/src/lib.rs:131-144 | the line is the link, the reference and the highlighted text in the list-item markup |
| Search.OrIdsExact | client/src/lib.rs:269-272 | an id is in the union exactly when it is in some found bucket |
| Search.AndMatchesExact | client/src/lib.rs:276-280 | an id survives the intersection exactly when it was admitted and is in every found bucket |
| Search.MatchedIds | client/src/lib.rs:269-280 | `or_matches` narrowed to `and_matches`, under either D&C test; `MatchedIdsExact` states which verses match |
| Search.MatchedIdsExact | client/src/lib.rs:269-280 | a verse matches exactly when some stem was found, the verse is in every found bucket, it has a path and the collection filter admits it |
| Search.DcSectionOneUnmatched | client/src/lib.rs:218-222 | with the default D&C range 1 - 138, a section-1 verse that every found stem names is matched under the corrected test and never under the test as written |
| Search.MatchedIdsOrderFree | client/src/lib.rs:256-280 | the matches do not depend on the hash order the found stems are visited in |
| Search.AbsentStemIgnored | client/src/lib.rs:260-262 | a query stem without a bucket changes no match |
| Search.MergedWithin | client/src/lib.rs:282-300 | the spans merged for a verse lie inside its text |
| Search.SpansWithinPermuted | client/src/lib.rs:136-137 | reordering spans keeps them inside the text |
| Search.LineDefined | client/src/lib.rs:302-305 | under a servable index every indexed verse renders to a line |
| Search.HasLeast | client/src/lib.rs:307 | every nonempty set of ids has a least element |
| Search.InOrderExists | client/src/lib.rs:307 | every set of ids can be listed in increasing order |
| Search.InOrderUnique | client/src/lib.rs:307 | that increasing listing is unique, so the sorted output is determined |
| Search.MatchedHavePaths | client/src/lib.rs:273 | every matched id has a path, so the lookup that unwraps it never panics |
| Search.SearchLines | client/src/lib.rs:237-313 | what `full_match_search` returns, under either D&C test; `SearchLinesShape` states its shape and `FlagsIgnored` what it ignores |
| Search.SearchLinesShape | client/src/lib.rs:237-313 | a query the guard lets through returns one line per matched verse, line i being that of the i-th least matched id |
| Search.FlagsIgnored | client/src/lib.rs:237-313 | the and, caseSensitive and exact flags never change the result |
| Search.LeastOf | client/src/lib.rs:307 | the scan returns the least id of the set |
| Search.CollectOrIds | client/src/lib.rs:269-272 | the loop over the found buckets computes their union |
| Search.CollectOrMatches | client/src/lib.rs:269-274 | the union filtered by the collection check is or_matches |
| Search.IntersectBuckets | client/src/lib.rs:276-280 | the loop computes the admitted ids narrowed by every found bucket |
| Search.MergedSnoc | client/src/lib.rs:293-297 | one more bucket appends that bucket's decoded spans to a verse's merged list |
| Search.MergeHighlights | client/src/lib.rs:282-300 | the fold maps each matched verse, and only those, to the spans of all found stems in visiting order |
| Search.MergeStep | client/src/lib.rs:289-299 | one turn of the fold extends every entry by the next bucket |
| Search.NextInOrder | client/src/lib.rs:307 | the least id still to render is the next in increasing order |
| Search.RenderNext | client/src/lib.rs:302-308 | one turn renders the least remaining id and appends its line |
| Search.RenderLines | client/src/lib.rs:301-308 | the lines of the merged verses, in increasing id order |
| Search.VersePaths | client/src/lib.rs:62 | the inverted paths table maps every verse's path back to its id |
| Search.MatchedDecode | client/src/lib.rs:284-292 | every matched verse is in every found bucket and its packed spans decode there; with no stem found nothing matches |
| Search.FullMatchSearch | client/src/lib.rs:237-313 | the search returns the specified lines, under the D&C test it is given: none when the guard refuses, otherwise each matched verse's line in increasing id order |
| WebPreferences.Assign | client/web/src/Preferences.tsx:351 | `c[k] = …` leaves the keys of the object plus `k` |
| WebPreferences.LookupIn | client/web/src/Preferences.tsx:348 | a key reads as present exactly when the object has it |
| WebPreferences.LookupAssign | client/web/src/Preferences.tsx:351-358 | after `o[k] = v`, `k` reads `v` and every other key reads as before |
| WebPreferences.AssignAt | client/web/src/Preferences.tsx:351-358 | assigning to an existing key keeps its place in the entry order |
| WebPreferences.LookupFirst | client/web/src/Preferences.tsx:348-349 | reading a key finds its first occurrence |
| WebPreferences.LookupAt | client/web/src/Preferences.tsx:348-349 | with distinct keys, reading the key of entry i gives entry i's value |
| WebPreferences.IndexKey | client/web/src/Preferences.tsx:346 | an array's own key names an index below its length, written as a canonical numeral |
| WebPreferences.IndexKeyOf | client/web/src/Preferences.tsx:346 | each index below the length is such a key |
| WebPreferences.Merge | client/web/src/Preferences.tsx:345-363 | the loop over `Object.entries(a)` computes `mergeConfigs(a, b)` |
| WebPreferences.MergeEntry | client/web/src/Preferences.tsx:347-359 | one turn of that loop computes the value written for the key |
| WebPreferences.MergeFromSome | client/web/src/Preferences.tsx:346-362 | the reduce succeeds exactly when every remaining entry merges |
| WebPreferences.MergeFromLookup | client/web/src/Preferences.tsx:346-362 | a successful reduce adds the remaining keys, each holding its merged value, and leaves the other keys of the accumulator |
| WebPreferences.MergeConfigs | client/web/src/Preferences.tsx:345-363 | `mergeConfigs`; `MergeConfigsLookup`, `MergeConforms` and `MergeSelf` state what it returns |
| WebPreferences.MergeConfigsLookup | client/web/src/Preferences.tsx:345-363 | `mergeConfigs(a, b)` throws exactly when merging some key throws; otherwise it has exactly `a`'s keys, each holding its merged value |
| WebPreferences.ConformsRefl | client/web/src/Preferences.tsx:349 | every object has its own shape |
| WebPreferences.MergeConforms | client/web/src/Preferences.tsx:345-363 | whatever was saved, the merged preferences keep every key and type of the defaults |
| WebPreferences.MergeValue | client/web/src/Preferences.tsx:347-359 | the value `mergeConfigs` writes for one key; `MergeValueConforms` states its type and shape |
| WebPreferences.MergeValueConforms | client/web/src/Preferences.tsx:347-359 | the value written for a key has the type and shape of the default's |
| WebPreferences.MergeSelf | client/web/src/Preferences.tsx:365-373 | merging null-free preferences with themselves gives them back, so saved defaults load as the defaults |
| WebPreferences.MergeFromIdentity | client/web/src/Preferences.tsx:346-362 | when every entry merges to itself the reduce rebuilds the object |
| WebPreferences.AssignNew | client/web/src/Preferences.tsx:351-358 | assigning a new key appends it |
| WebPreferences.DeepSet | client/web/src/Preferences.tsx:382-393 | `deepSet`; `DeepSetAt`, `DeepSetOthers` and `DeepSetNoKey` state what it writes and what it keeps |
| WebPreferences.DeepSetAt | client/web/src/Preferences.tsx:382-393 | after a successful `deepSet` along nonempty keys, reading the path gives the value written, or the spread merge of it |
| WebPreferences.DeepSetOthers | client/web/src/Preferences.tsx:387-392 | every path that branches off the written one, at any depth, reads as before |
| WebPreferences.DeepSetNoKey | client/web/src/Preferences.tsx:383-386 | an empty path or an empty first key returns the object unchanged |
| WebPreferences.SetEvery | client/web/src/Preferences.tsx:417 | the reduce writing `acc[curr] = allValue` builds the all-set object |
| WebPreferences.AllSetLookup | client/web/src/Preferences.tsx:417 | exactly the given keys are set, each to the one value |
| WebPreferences.SetAll | client/web/src/Preferences.tsx:408-424 | `setAll`; `SetAllOthers` and `SetAllBooks` state its effect |
| WebPreferences.SetAllOthers | client/web/src/Preferences.tsx:408-424 | `setAll` replaces `toSearch` and no other preference |
| WebPreferences.SetAllBooks | client/web/src/Preferences.tsx:414-418 | the collection gets the new value; for D&C that is the range from min to max, or min to min when clearing |
| WebPreferences.AllBooksLookup | client/web/src/Preferences.tsx:417 | a book collection's new value lists exactly its current books, each set to the chosen value |
| WebPreferences.SetAllKeeps | client/web/src/Preferences.tsx:412-421 | `includeSource` and the other collections read as before |
| BookPreferences.IntString | client/web/src/BookPreferences.tsx:42 | the rendered number is nonempty |
| BookPreferences.TrueCount | client/web/src/BookPreferences.tsx:41 | the checked count is at most the number of books |
| BookPreferences.SelectedCount | client/web/src/BookPreferences.tsx:25-43 | `getSelectedCount`; `SelectedCountCases` states each case |
| BookPreferences.SelectedCountCases | client/web/src/BookPreferences.tsx:25-43 | empty exactly when the collection is hidden; "(all)" when all are included; otherwise the checked count in parentheses, which reads back, or the section range |
| BookPreferences.EveryIncludedIff | client/web/src/BookPreferences.tsx:60 | `every` throws only on a nonempty order without a book map, and otherwise holds exactly when every listed book is checked |
| BookPreferences.AllIncluded | client/web/src/BookPreferences.tsx:59-62 | `allIncluded`; `AllIncludedIff` states when it holds and when it throws |
| BookPreferences.AllIncludedIff | client/web/src/BookPreferences.tsx:59-62 | all are included exactly when every listed book is checked or the section range equals [min, max]; it throws only on a nonempty order without a book map |
| BookPreferences.SliderRange | client/web/src/BookPreferences.tsx:63-67 | the new range is ordered; the moved thumb takes the value and the other keeps its place or gives way to it |
| BookPreferences.SliderRangeKeepsOther | client/web/src/BookPreferences.tsx:66-67 | a move that does not cross the other thumb leaves it where it was |
| BookPreferences.SetSlider | client/web/src/BookPreferences.tsx:63-69 | `setSlider`; `SetSliderStores` states the range it stores |
| BookPreferences.SetSliderStores | client/web/src/BookPreferences.tsx:68 | after the write, the stored D&C range is the new, ordered range |
| BookPreferences.MinSliderMax | client/web/src/BookPreferences.tsx:147 | the min slider's upper bound; `SliderBounds` bounds it |
| BookPreferences.MaxSliderMin | client/web/src/BookPreferences.tsx:158 | the max slider's lower bound; `SliderBounds` bounds it |
| BookPreferences.SliderBounds | client/web/src/BookPreferences.tsx:75-158 | each slider's bounds stay within [min, max]; for an ordered range the pivot lies between the thumbs and each thumb lies within its own slider |
| WebPreferences.SetPathValue | client/web/src/Preferences.tsx:404-406 | `setPathValue`; `BookPreferences.SetPathValueAt` states what it stores |
| BookPreferences.SetPathValueAt | client/web/src/Preferences.tsx:404-406 | a two-key write below `toSearch` stores its value at that path |
| BookPreferences.ToggleSource | client/web/src/BookPreferences.tsx:94 | the "Hide" / "Use" button's write; `ToggleSourceFlips` states it |
| BookPreferences.ToggleSourceFlips | client/web/src/BookPreferences.tsx:94 | the button flips the collection's inclusion flag |
| BookPreferences.CheckBook | client/web/src/BookPreferences.tsx:121 | a book checkbox's write; `CheckBookStores` states it |
| BookPreferences.CheckBookStores | client/web/src/BookPreferences.tsx:121 | the checkbox stores its new state under the book's name |
| WebApp.CollectTrueKeys | client/web/src/index.tsx:21-26 | the reduce with `reduceString` collects the keys whose value is truthy |
| WebApp.TrueKeys | client/web/src/index.tsx:21-26 | `entries.reduce(reduceString, [])`; `TrueKeysIn` and `TrueKeysAppend` state what it collects |
| WebApp.TrueKeysIn | client/web/src/index.tsx:21-26 | a key is collected exactly when some entry holds it with a truthy value |
| WebApp.TrueKeysAppend | client/web/src/index.tsx:21-26 | collecting keeps entry order |
| WebApp.BookFieldsLookup | client/web/src/index.tsx:39-45 | each collection's key reads its own book list |
| WebApp.WasmFieldsLookup | client/web/src/index.tsx:34-46 | each key of the converted object reads its own value |
| WebApp.WasmPreferences | client/web/src/index.tsx:28-47 | `jsPreferencesToWasmPreferences`; the `WasmPreferences` lemmas state when it throws and what it builds |
| WebApp.WasmPreferencesDefined | client/web/src/index.tsx:28-47 | the conversion throws exactly when `toSearch`, a book collection or the D&C setting is missing |
| WebApp.WasmPreferencesShape | client/web/src/index.tsx:28-47 | the converted object holds the flags, the included sources and the collections' book lists |
| WebApp.WasmPreferencesFlags | client/web/src/index.tsx:35-44 | the flags, the included sources and the D&C range pass through unchanged |
| WebApp.WasmPreferencesBooks | client/web/src/index.tsx:40-43 | each collection's book list holds the names checked in it, in order |
| WebApp.BookListOf | client/web/src/index.tsx:40-43 | a book list is the truthy keys of the collection, as strings |
| WebApp.RunSearch | client/web/src/index.tsx:125-129 | the length gate around the search; `RunSearchGate` states it |
| WebApp.RunSearchGate | client/web/src/index.tsx:125-129 | a count is shown exactly when the term has at least two characters, and it is then the number of result lines; a shorter term shows no results |
| WebApp.ItemElement | client/web/src/index.tsx:85-93 | the item is an `LI`, the target or its parent, and there is none exactly when neither is an `LI` |
| WebApp.TrailingRun | client/web/src/index.tsx:95-100 | the run is no longer than the click list |
| WebApp.ReplayCounts | client/web/src/index.tsx:95-100 | after any events the counter holds the last verse clicked since the last expiry and the length of the run of clicks on it, or is reset |
| WebApp.PreviewOpensAfterFourClicks | client/web/src/index.tsx:101-103 | the preview opens exactly when a click ends a run of at least four clicks on the same verse since the timer last expired |
| WebApp.PreviewCounter.constructor | client/web/src/index.tsx:67-71 | the counter starts reset, with no timer |
| WebApp.PreviewCounter.ResetPreview | client/web/src/index.tsx:75-82 | a pending timer is cancelled and the counter is reset |
| WebApp.PreviewCounter.PreviewListener | client/web/src/index.tsx:84-110 | a click off any item changes nothing; a click on an item counts it, opens the preview from the fourth click on, cancels the pending timer and records the new one |

## Left out

- Text is a sequence of characters. The source slices UTF-8 strings by byte offset, and JavaScript measures strings in UTF-16 units. The model uses character offsets for both. For text outside ASCII, the source's byte offsets differ from the model's.
- Unicode `is_alphanumeric`, `to_lowercase` and the Snowball English stemmer are not modelled. They are uninterpreted functions of a `TextOps` parameter. Unicode White_Space, which `\s` and `split_whitespace` use, is written out.
- The serialized corpora, the bincode loading, the generated perfect-hash tables and the wasm-bindgen/serde conversions are not modelled. The tables are Dafny maps, and the corpus is a parameter.
- Logging, timing (`performance.now`, `println!`, `log!`) and `localStorage` are not modelled. So `loadPreferences` and `savePreferences` are left out, beyond `mergeConfigs` itself.
- Hash-map and hash-set iteration orders are parameters: the order of the paths map in `paths_to_verse_paths_index`, and the visiting order of the found stems in `full_match_search`.
- Panics (`unwrap` on a missing path, an index out of bounds, U256 underflow in `unpack_indices`) are modelled as `None` results or as the `Servable` precondition. Unwinding is not modelled.
- Search.FullMatchSearch: requires the paths table to be injective (no two ids share a path). The model does not derive this from `IndexBuilder.AllEntries`; it rests on the numbering of chapters, sections and verses.
- Search.FullMatchSearch: the final `sort_unstable_by` over (id, line) pairs is modelled as emitting the matched ids in increasing order. Ids are distinct, so the sort never compares the lines.
- IndexBuilder.AllEntries: the u16 id counter is bounded by the `Indexable` precondition, not wrapped. The u8 casts of the book and section indices are written out (`AsU8`).
- IndexBuilder.PrepareBookPaths: the chapter coordinate `chapter - 1`, a `u8` in `prepare_book_paths`, is an unbounded natural in the model. `Indexable` requires numbering from 1 but no upper bound, so a chapter numbered above 256 is not stored as the source would store it.
- LegacyIndexBuilder.AllEntries: the u32 id counter is bounded by `Indexable`. The `usize` subtractions are required not to underflow.
- `bootstrap_searcher`, `get_chapter_preview`, `adserde` and the `overtake` view are not modelled. They are start-up work and UI around the core.
- JavaScript numbers are integers in the model. Floating point, `NaN` from `parseInt` and non-integer slider values are not modelled.
- Inherited prototype properties are not modelled. The source reads objects only through own properties and `hasOwnProperty`.
- JavaScript's ordering of integer-like keys is not modelled. Objects keep insertion order, which is what the preference objects, with word keys, use.
- WebPreferences.MergeConfigs: only the two-argument call is modelled, as the source makes it. The optional accumulator `c` starts as `{}`.
- WebApp.ItemElement: an item whose `data-verse-path` attribute is missing (`undefined`) is not modelled. The path is a string.
- BookPreferences.AllIncluded: the props are typed parameters (`Option`), not JavaScript values.
- React state, effects, `useCallback` dependencies, JSX rendering and the panel's `open` flag are not modelled.
- The search form (Form.tsx), the preview view (overtake.tsx), the debounce and the bootstrap timer are not modelled.
- WebApp.PreviewCounter.PreviewListener: `clearTimeout` and `setTimeout` are not called. The timer cancelled and the preview path opened are outputs, and the new timer id is an input.
- `preferences` is ignored by `resolve_verse_path`, as in the source.

## Findings

| source | as written | input that shows it | evidently intended | confidence | as-written member | corrected member |
|---|---|---|---|---|---|---|
| data-bundler/src/lib.rs:134-147 | `num >> 64 << 64` clears the low limb, but `num` is never shifted down, so limbs 1 to 3 are always 0 | the 9 offsets [1234, 2046, 0, 1, 2, 3, 4, 5, 88], whose packed value needs more than 64 bits | the four little-endian 64-bit words of the packed value | high, not executed | Codec.PackIndicesArr, Codec.PackIndicesArrLosesHighBits | Codec.PackIndicesLimbs |
| data-bundler/src/main.rs:217 | the Pearl of Great Price path stores `verse.verse` itself; every other collection stores `verse - 1` | any Pearl of Great Price verse, e.g. verse 1 of Moses 1 resolves to verse 2 and links to "1.2" | verse coordinate `verse - 1`, as data-bundler/src/lib.rs:343 writes it | high, not executed | LegacyIndexBuilder.PogpVerseOffByOne, VerseLookup.LegacyPogpPathResolvesToNextVerse | IndexBuilder.PogpVerseId, VerseLookup.PogpPathResolves |
| client/src/lib.rs:218-222 | the D&C range (1-based section numbers) is compared with the stored zero-based section index | with the default range 1 - 138, section 1 (stored as 0) is filtered out | compare `section + 1` with the range | medium, not executed | VerseLookup.CheckCollectionSearchableAsWritten, VerseLookup.DcSectionOneExcluded, Search.DcSectionOneUnmatched | VerseLookup.CheckCollectionSearchable, VerseLookup.DcFilterBySectionNumber |
