/**
 * Text primitives shared by the bundler and the query engine: the Unicode
 * operations the code borrows from the Rust standard library and the stemmer
 * crate, whitespace splitting, substring replacement and decimal rendering.
 * Text is a sequence of characters.
 */
module Text {

  /**
   * Operations whose definitions live in foreign code: Unicode
   * `char::is_alphanumeric`, `str::to_lowercase` and the English Snowball
   * stemmer. They are parameters of the model, so every property proved here
   * holds whatever they compute.
   */
  datatype TextOps = TextOps(
    isAlphanumeric: char -> bool,
    lower: string -> string,
    stem: string -> string)

  /** Unicode White_Space: what the `\s` class of the `regex` crate and
      `str::split_whitespace` treat as whitespace. */
  predicate IsWhiteSpace(c: char)
  {
    ('\U{9}' <= c <= '\U{D}') || c == '\U{20}' || c == '\U{85}' || c == '\U{A0}' ||
    c == '\U{1680}' || ('\U{2000}' <= c <= '\U{200A}') || c == '\U{2028}' || c == '\U{2029}' ||
    c == '\U{202F}' || c == '\U{205F}' || c == '\U{3000}'
  }

  // ---------------------------------------------------------------------------
  // str::replace
  // ---------------------------------------------------------------------------

  /** `s.replace(pat, rep)`: every occurrence of `pat`, found left to right
      without overlap, is replaced by `rep`. */
  function ReplaceAll(s: string, pat: string, rep: string): string
    requires pat != []
    decreases |s|
  {
    if |s| < |pat| then s
    else if s[..|pat|] == pat then rep + ReplaceAll(s[|pat|..], pat, rep)
    else [s[0]] + ReplaceAll(s[1..], pat, rep)
  }

  /** Replacing a single character by text without it leaves none of it, and
      every other character passes through in order. */
  lemma {:induction false} ReplaceCharRemovesIt(s: string, c: char, rep: string)
    requires c !in rep
    ensures c !in ReplaceAll(s, [c], rep)
    ensures forall d | d in ReplaceAll(s, [c], rep) :: d in s || d in rep
    decreases |s|
  {
    if |s| >= 1 {
      ReplaceCharRemovesIt(s[1..], c, rep);
    }
  }

  /** Text without the character is left alone. */
  lemma {:induction false} ReplaceCharAbsent(s: string, c: char, rep: string)
    requires c !in s
    ensures ReplaceAll(s, [c], rep) == s
    decreases |s|
  {
    if |s| >= 1 {
      assert s[..1] == [s[0]];
      ReplaceCharAbsent(s[1..], c, rep);
      assert [s[0]] + s[1..] == s;
    }
  }

  // ---------------------------------------------------------------------------
  // str::split_whitespace
  // ---------------------------------------------------------------------------

  /** Length of the run of non-whitespace characters at the front of `s`. */
  function RunLength(s: string): (n: nat)
    ensures n <= |s|
    ensures forall i :: 0 <= i < n ==> !IsWhiteSpace(s[i])
    ensures n == |s| || IsWhiteSpace(s[n])
  {
    if s == [] || IsWhiteSpace(s[0]) then 0 else 1 + RunLength(s[1..])
  }

  /** `s.split_whitespace()`: the maximal runs of non-whitespace characters. */
  function SplitWhitespace(s: string): (tokens: seq<string>)
    ensures forall t | t in tokens :: t != [] && forall c | c in t :: !IsWhiteSpace(c)
    decreases |s|
  {
    if s == [] then []
    else if IsWhiteSpace(s[0]) then SplitWhitespace(s[1..])
    else
      var n := RunLength(s);
      [s[..n]] + SplitWhitespace(s[n..])
  }

  /** Tokens joined with single spaces. */
  function JoinWithSpaces(tokens: seq<string>): string
  {
    if tokens == [] then []
    else if |tokens| == 1 then tokens[0]
    else tokens[0] + " " + JoinWithSpaces(tokens[1..])
  }

  ghost predicate IsToken(t: string)
  {
    t != [] && forall c | c in t :: !IsWhiteSpace(c)
  }

  /** Splitting undoes joining with spaces, for nonempty whitespace-free tokens. */
  lemma {:induction false} SplitJoin(tokens: seq<string>)
    requires forall t | t in tokens :: IsToken(t)
    ensures SplitWhitespace(JoinWithSpaces(tokens)) == tokens
    decreases |tokens|
  {
    if tokens != [] {
      var t := tokens[0];
      var rest := tokens[1..];
      var s := JoinWithSpaces(tokens);
      if |tokens| == 1 {
        RunLengthOfToken(t, []);
        assert s[RunLength(s)..] == [];
        assert s[..RunLength(s)] == t;
      } else {
        var tail := " " + JoinWithSpaces(rest);
        assert s == t + tail;
        RunLengthOfToken(t, tail);
        assert s[..|t|] == t;
        assert s[|t|..] == tail;
        assert tail[1..] == JoinWithSpaces(rest);
        SplitJoin(rest);
      }
    }
  }

  lemma {:induction false} RunLengthOfToken(t: string, tail: string)
    requires IsToken(t)
    requires tail == [] || IsWhiteSpace(tail[0])
    ensures RunLength(t + tail) == |t|
    decreases |t|
  {
    if |t| > 1 {
      assert (t + tail)[1..] == t[1..] + tail;
      RunLengthOfToken(t[1..], tail);
    } else {
      assert (t + tail)[1..] == tail;
    }
  }

  // ---------------------------------------------------------------------------
  // Decimal rendering of numbers (format! / template literals)
  // ---------------------------------------------------------------------------

  function DigitChar(d: nat): char
    requires d < 10
  {
    "0123456789"[d]
  }

  function DigitValue(c: char): nat
  {
    if '0' <= c <= '9' then (c as int - '0' as int) as nat else 0
  }

  /** The decimal numeral of `n`, without leading zeros. */
  function DecimalString(n: nat): (s: string)
    ensures s != []
    ensures forall c | c in s :: '0' <= c <= '9'
  {
    if n < 10 then [DigitChar(n)] else DecimalString(n / 10) + [DigitChar(n % 10)]
  }

  /** The number a decimal numeral denotes. */
  function ParseDecimal(s: string): nat
  {
    if s == [] then 0 else ParseDecimal(s[..|s| - 1]) * 10 + DigitValue(s[|s| - 1])
  }

  lemma {:induction false} ParseDecimalString(n: nat)
    ensures ParseDecimal(DecimalString(n)) == n
  {
    if n >= 10 {
      ParseDecimalString(n / 10);
      var s := DecimalString(n);
      assert s[..|s| - 1] == DecimalString(n / 10);
    }
  }

  /** `s` ends with `suffix`. */
  predicate EndsWith(s: string, suffix: string)
  {
    |suffix| <= |s| && s[|s| - |suffix|..] == suffix
  }
}
