/**
 * The two tokenizers of the system.
 *
 * At build time the bundler finds the ranges of maximal runs of word
 * characters in a verse's original text (data-bundler/src/lib.rs
 * get_word_ranges), so that highlights can later be cut from that text.
 *
 * At query time the search term is normalised (client/src/lib.rs
 * make_splittable: dashes become spaces, "'s" is dropped, the text is
 * lowercased and every character outside [A-Za-z0-9\sæ-] is deleted) and
 * split on whitespace.
 *
 * Positions are character positions; the source reports byte offsets.
 */
module Tokenizer {
  import opened Base
  import opened Text

  const EN_DASH: char := '\U{2013}'
  const EM_DASH: char := '\U{2014}'

  // ---------------------------------------------------------------------------
  // get_word_ranges
  // ---------------------------------------------------------------------------

  predicate IsWordChar(ops: TextOps, c: char)
  {
    ops.isAlphanumeric(c) || c == 'æ' || c == '-'
  }

  /** The state of the scan after the characters of `t`: the ranges emitted so
      far and the start of the word currently open, if any. */
  function Scan(ops: TextOps, t: string): (seq<(nat, nat)>, Option<nat>)
  {
    if t == [] then ([], None)
    else
      var n: nat := |t| - 1;
      var (ranges, open) := Scan(ops, t[..n]);
      if IsWordChar(ops, t[n]) then
        (ranges, if open == None then Some(n) else open)
      else if open.Some? then
        (ranges + [(open.value, n)], None)
      else
        (ranges, None)
  }

  /** The ranges `get_word_ranges` returns. */
  function WordRanges(ops: TextOps, text: string): seq<(nat, nat)>
  {
    Scan(ops, text).0
  }

  method GetWordRanges(ops: TextOps, text: string) returns (results: seq<(nat, nat)>)
    ensures results == WordRanges(ops, text)
  {
    results := [];
    var open: Option<nat> := None;
    for idx := 0 to |text|
      invariant (results, open) == Scan(ops, text[..idx])
    {
      assert text[..idx + 1][..idx] == text[..idx];
      var letter := text[idx];
      var isWordChar := ops.isAlphanumeric(letter) || letter == 'æ' || letter == '-';
      if isWordChar {
        if open == None {
          open := Some(idx);
        }
      } else {
        if open.Some? {
          results := results + [(open.value, idx)];
          open := None;
        }
      }
    }
    assert text[..|text|] == text;
  }

  /** A maximal run of word characters [s, e) that is followed by a non-word
      character inside the text. */
  ghost predicate IsWordRun(ops: TextOps, text: string, s: nat, e: nat)
  {
    s < e < |text| &&
    (forall i :: s <= i < e ==> IsWordChar(ops, text[i])) &&
    !IsWordChar(ops, text[e]) &&
    (s == 0 || !IsWordChar(ops, text[s - 1]))
  }

  /** A word run starting at `o` that reaches the end of `t`. */
  ghost predicate OpenRun(ops: TextOps, t: string, o: nat)
  {
    o < |t| &&
    (forall i :: o <= i < |t| ==> IsWordChar(ops, t[i])) &&
    (o == 0 || !IsWordChar(ops, t[o - 1]))
  }

  ghost predicate ScanInvariant(ops: TextOps, t: string, ranges: seq<(nat, nat)>, open: Option<nat>)
  {
    (forall r :: r in ranges <==> IsWordRun(ops, t, r.0, r.1)) &&
    (forall i, j :: 0 <= i < j < |ranges| ==> ranges[i].1 < ranges[j].0) &&
    (open.Some? ==> OpenRun(ops, t, open.value) && forall i :: 0 <= i < |ranges| ==> ranges[i].1 < open.value) &&
    (open.None? ==> t == [] || !IsWordChar(ops, t[|t| - 1]))
  }

  lemma {:induction false} ScanMaintains(ops: TextOps, t: string)
    ensures ScanInvariant(ops, t, Scan(ops, t).0, Scan(ops, t).1)
    decreases |t|
  {
    if t != [] {
      var n := |t| - 1;
      var front := t[..n];
      ScanMaintains(ops, front);
      var (ranges, open) := Scan(ops, front);
      var (ranges', open') := Scan(ops, t);
      assert forall i :: 0 <= i < n ==> front[i] == t[i];
      // A run that closes before the last character is a run of `front`.
      assert forall s: nat, e: nat :: e < n ==> (IsWordRun(ops, t, s, e) <==> IsWordRun(ops, front, s, e));
      if IsWordChar(ops, t[n]) {
        forall r ensures r in ranges' <==> IsWordRun(ops, t, r.0, r.1) {
          if IsWordRun(ops, t, r.0, r.1) {
            assert r.1 != n;
          }
        }
      }
    }
  }

  /** get_word_ranges emits exactly the maximal word runs that are followed by
      a non-word character, in strictly increasing, disjoint order. */
  lemma {:induction false} WordRangesShape(ops: TextOps, text: string)
    ensures forall r :: r in WordRanges(ops, text) <==> IsWordRun(ops, text, r.0, r.1)
    ensures forall i, j :: 0 <= i < j < |WordRanges(ops, text)| ==>
      WordRanges(ops, text)[i].1 < WordRanges(ops, text)[j].0
  {
    ScanMaintains(ops, text);
  }

  /** A word that runs to the end of the text is never emitted, so a verse
      whose text ends in a word character loses its last word. */
  lemma {:induction false} LastWordDropped(ops: TextOps, text: string)
    requires text != [] && IsWordChar(ops, text[|text| - 1])
    ensures forall r | r in WordRanges(ops, text) :: r.1 < |text| - 1
  {
    ScanMaintains(ops, text);
  }

  // ---------------------------------------------------------------------------
  // make_splittable and the query's terms
  // ---------------------------------------------------------------------------

  /** The characters the pattern [^A-Za-z0-9\sæ\-] does not delete. */
  predicate IsVerseChar(c: char)
  {
    ('A' <= c <= 'Z') || ('a' <= c <= 'z') || ('0' <= c <= '9') || IsWhiteSpace(c) || c == 'æ' || c == '-'
  }

  /** `RE_VERSE_CHARS.replace_all(s, "")`. */
  function KeepVerseChars(s: string): (r: string)
    ensures forall c | c in r :: IsVerseChar(c) && c in s
  {
    if s == [] then []
    else (if IsVerseChar(s[0]) then [s[0]] else []) + KeepVerseChars(s[1..])
  }

  /** The filter deletes nothing from text that is already clean, so applying
      it twice is the same as once. */
  lemma {:induction false} KeepVerseCharsClean(s: string)
    requires forall c | c in s :: IsVerseChar(c)
    ensures KeepVerseChars(s) == s
  {
    if s != [] {
      KeepVerseCharsClean(s[1..]);
      assert [s[0]] + s[1..] == s;
    }
  }

  /** The text that is lowercased: dashes replaced and "'s" dropped. */
  function Substituted(text: string): string
  {
    var noEnDash := ReplaceAll(text, [EN_DASH], " ");
    var noEmDash := ReplaceAll(noEnDash, [EM_DASH], " ");
    var again := ReplaceAll(noEmDash, [EM_DASH], " ");
    ReplaceAll(again, "'s", "")
  }

  function MakeSplittable(ops: TextOps, text: string): string
  {
    KeepVerseChars(ops.lower(Substituted(text)))
  }

  /** Unicode lowercasing never yields an ASCII capital. */
  ghost predicate LowerHasNoAsciiCapital(ops: TextOps)
  {
    forall s, c | c in ops.lower(s) :: !('A' <= c <= 'Z')
  }

  /** Every character left is an ASCII lowercase letter, a digit, whitespace,
      'æ' or '-' (the letter case as far as lowercasing guarantees it). */
  lemma {:induction false} MakeSplittableChars(ops: TextOps, text: string)
    ensures forall c | c in MakeSplittable(ops, text) ::
      ('A' <= c <= 'Z') || ('a' <= c <= 'z') || ('0' <= c <= '9') || IsWhiteSpace(c) || c == 'æ' || c == '-'
    ensures LowerHasNoAsciiCapital(ops) ==> forall c | c in MakeSplittable(ops, text) ::
      ('a' <= c <= 'z') || ('0' <= c <= '9') || IsWhiteSpace(c) || c == 'æ' || c == '-'
  {
  }

  /** Before lowercasing, no en or em dash is left (the second em dash
      replacement finds nothing to do), and no apostrophe survives at all. */
  lemma {:induction false} SubstitutedHasNoDashes(ops: TextOps, text: string)
    ensures EN_DASH !in Substituted(text) && EM_DASH !in Substituted(text)
    ensures '\'' !in MakeSplittable(ops, text)
  {
    var noEnDash := ReplaceAll(text, [EN_DASH], " ");
    ReplaceCharRemovesIt(text, EN_DASH, " ");
    var noEmDash := ReplaceAll(noEnDash, [EM_DASH], " ");
    ReplaceCharRemovesIt(noEnDash, EM_DASH, " ");
    ReplaceCharAbsent(noEmDash, EM_DASH, " ");
    ReplaceAllChars(noEmDash, "'s", "");
  }

  /** Replacement introduces no character that is in neither the text nor the
      replacement. */
  lemma {:induction false} ReplaceAllChars(s: string, pat: string, rep: string)
    requires pat != []
    ensures forall d | d in ReplaceAll(s, pat, rep) :: d in s || d in rep
    decreases |s|
  {
    if |s| >= |pat| {
      if s[..|pat|] == pat {
        ReplaceAllChars(s[|pat|..], pat, rep);
      } else {
        ReplaceAllChars(s[1..], pat, rep);
      }
    }
  }

  /** The stems a query searches for: the raw term is lowercased, made
      splittable, split on whitespace and each word stemmed; duplicates
      collapse (client/src/lib.rs collects them into a set). */
  function QueryStems(ops: TextOps, raw: string): (stems: set<string>)
    ensures forall t | t in SplitWhitespace(MakeSplittable(ops, ops.lower(raw))) :: ops.stem(t) in stems
    ensures forall w | w in stems :: exists t | t in SplitWhitespace(MakeSplittable(ops, ops.lower(raw))) :: w == ops.stem(t)
  {
    set t | t in SplitWhitespace(MakeSplittable(ops, ops.lower(raw))) :: ops.stem(t)
  }
}
