/**
 * String utilities (src/utility/string.cpp, include/khepri/utility/string.hpp):
 * upper-casing, trimming white space, case-insensitive equality and
 * ordering in the classic "C" locale, and a tokenizer that hands out the
 * maximal runs of non-delimiter characters one call at a time.
 */
module Strings {
  import opened Errors

  /** `toupper` in the classic locale: only 'a' to 'z' change. */
  function ToUpper(c: char): (r: char)
    ensures 'a' <= c <= 'z' ==> r as int == c as int - 32
    ensures !('a' <= c <= 'z') ==> r == c
  {
    if 'a' <= c <= 'z' then (c as int - 32) as char else c
  }

  /** `tolower` in the classic locale: only 'A' to 'Z' change. */
  function ToLower(c: char): (r: char)
    ensures 'A' <= c <= 'Z' ==> r as int == c as int + 32
    ensures !('A' <= c <= 'Z') ==> r == c
  {
    if 'A' <= c <= 'Z' then (c as int + 32) as char else c
  }

  /** `uppercase`: the string with every character upper-cased. */
  function Uppercase(s: string): (r: string)
    ensures |r| == |s|
    ensures forall i :: 0 <= i < |s| ==> r[i] == ToUpper(s[i])
  {
    if s == [] then [] else [ToUpper(s[0])] + Uppercase(s[1..])
  }

  /** The white-space characters `trim` removes. */
  const SPACES: string := "\t\n\U{000B}\U{000C}\r "

  /** `find_first_not_of`: the first index at or after `from` whose character is not in `cs`, or none. */
  function FindFirstNotOf(s: string, cs: string, from: nat): (r: Option<nat>)
    ensures r.Some? ==> from <= r.value < |s| && s[r.value] !in cs
    ensures forall i :: from <= i < |s| && (r.None? || i < r.value) ==> s[i] in cs
    decreases |s| - from
  {
    if from >= |s| then None
    else if s[from] !in cs then Some(from)
    else FindFirstNotOf(s, cs, from + 1)
  }

  /** `find_first_of`: the first index at or after `from` whose character is in `cs`, or none. */
  function FindFirstOf(s: string, cs: string, from: nat): (r: Option<nat>)
    ensures r.Some? ==> from <= r.value < |s| && s[r.value] in cs
    ensures forall i :: from <= i < |s| && (r.None? || i < r.value) ==> s[i] !in cs
    decreases |s| - from
  {
    if from >= |s| then None
    else if s[from] in cs then Some(from)
    else FindFirstOf(s, cs, from + 1)
  }

  /** `find_last_not_of` over the first `upto` characters: the last index whose character is not in `cs`, or none. */
  function FindLastNotOf(s: string, cs: string, upto: nat): (r: Option<nat>)
    requires upto <= |s|
    ensures r.Some? ==> r.value < upto && s[r.value] !in cs
    ensures forall i :: 0 <= i < upto && (r.None? || i > r.value) ==> s[i] in cs
  {
    if upto == 0 then None
    else if s[upto - 1] !in cs then Some(upto - 1)
    else FindLastNotOf(s, cs, upto - 1)
  }

  /**
   * `trim`: the empty string when every character is white space, otherwise
   * the span from the first to the last character that is not.
   */
  function Trim(s: string): (r: string)
    ensures (forall i :: 0 <= i < |s| ==> s[i] in SPACES) ==> r == ""
    ensures (exists i :: 0 <= i < |s| && s[i] !in SPACES) ==>
      exists a, b :: 0 <= a < b <= |s| && r == s[a..b] &&
        (forall i :: 0 <= i < a ==> s[i] in SPACES) && (forall i :: b <= i < |s| ==> s[i] in SPACES)
    ensures r != "" ==> r[0] !in SPACES && r[|r| - 1] !in SPACES
  {
    match FindFirstNotOf(s, SPACES, 0)
    case None => ""
    case Some(start) =>
      match FindLastNotOf(s, SPACES, |s|)
      case None => assert false; ""
      case Some(end) => s[start..end + 1]
  }

  /** `case_insensitive_equals`: equal lengths and equal characters after `tolower`. */
  function CaseInsensitiveEquals(s1: string, s2: string): (r: bool)
    ensures r <==> |s1| == |s2| && forall i :: 0 <= i < |s1| ==> ToLower(s1[i]) == ToLower(s2[i])
  {
    if s1 == [] || s2 == [] then s1 == s2
    else ToLower(s1[0]) == ToLower(s2[0]) && CaseInsensitiveEquals(s1[1..], s2[1..])
  }

  /** `CaseInsensitiveLess`: lexicographic comparison of the `tolower`-mapped characters. */
  function CaseInsensitiveLess(t: string, u: string): (r: bool)
    ensures r ==> !CaseInsensitiveEquals(t, u)
    ensures r ==> |u| > 0
  {
    if u == [] then false
    else if t == [] then true
    else if ToLower(t[0]) < ToLower(u[0]) then true
    else if ToLower(u[0]) < ToLower(t[0]) then false
    else CaseInsensitiveLess(t[1..], u[1..])
  }

  /** The string with every character lower-cased: the key a case-insensitive map files a string under. */
  function Fold(s: string): (r: string)
    ensures |r| == |s|
    ensures forall i :: 0 <= i < |s| ==> r[i] == ToLower(s[i])
  {
    if s == [] then [] else [ToLower(s[0])] + Fold(s[1..])
  }

  /** The delimiters a `Tokenizer` uses unless told otherwise: all white space. */
  const DEFAULT_DELIMITERS: string := " \t\r\n\U{000B}\U{000C}"

  /**
   * `Tokenizer`: the input, the delimiters and the start of the next token,
   * none once the input is used up.
   */
  class Tokenizer {
    const input: string
    const delimiters: string
    var next: Option<nat>

    /** A pending token starts at a non-delimiter that follows a delimiter or the start of the input. */
    predicate Valid()
      reads this
    {
      next.Some? ==>
        next.value < |input| && input[next.value] !in delimiters &&
        (next.value == 0 || input[next.value - 1] in delimiters)
    }

    constructor (input: string, delimiters: string := DEFAULT_DELIMITERS)
      ensures Valid() && this.input == input && this.delimiters == delimiters
      ensures next == FindFirstNotOf(input, delimiters, 0)
    {
      this.input := input;
      this.delimiters := delimiters;
      next := FindFirstNotOf(input, delimiters, 0);
    }

    /**
     * `next`: none once the input is used up (and then for ever); otherwise
     * the maximal run of non-delimiters at the pending position, after
     * which the pending position moves to the start of the following run.
     */
    method Next() returns (token: Option<string>)
      requires Valid()
      modifies this
      ensures Valid()
      ensures old(next).None? ==> token.None? && next.None?
      ensures old(next).Some? ==> (token.Some? &&
        var start := old(next).value;
        exists end :: start < end <= |input| && token.value == input[start..end] &&
          (end == |input| || input[end] in delimiters) &&
          (forall i :: start <= i < end ==> input[i] !in delimiters) &&
          next == FindFirstNotOf(input, delimiters, end))
    {
      if next.None? {
        return None;
      }
      var start := next.value;
      var stop := FindFirstOf(input, delimiters, start);
      var end := if stop.Some? then stop.value else |input|;
      next := if stop.Some? then FindFirstNotOf(input, delimiters, end) else None;
      token := Some(input[start..end]);
    }
  }

  // ----- properties

  /** Upper-casing twice is upper-casing once. */
  lemma {:induction false} UppercaseIdempotent(s: string)
    ensures Uppercase(Uppercase(s)) == Uppercase(s)
  {
  }

  /** Trimming a trimmed string changes nothing. */
  lemma {:induction false} TrimIdempotent(s: string)
    ensures Trim(Trim(s)) == Trim(s)
  {
    var t := Trim(s);
    if t != "" {
      assert FindFirstNotOf(t, SPACES, 0) == Some(0);
      assert FindLastNotOf(t, SPACES, |t|) == Some(|t| - 1);
      assert t[0..|t|] == t;
    }
  }

  /** Equality ignoring case is reflexive, symmetric and transitive. */
  lemma {:induction false} CaseInsensitiveEqualsIsEquivalence(a: string, b: string, c: string)
    ensures CaseInsensitiveEquals(a, a)
    ensures CaseInsensitiveEquals(a, b) ==> CaseInsensitiveEquals(b, a)
    ensures CaseInsensitiveEquals(a, b) && CaseInsensitiveEquals(b, c) ==> CaseInsensitiveEquals(a, c)
  {
  }

  /** A string and its upper-cased form are equal ignoring case. */
  lemma {:induction false} UppercaseEqualsIgnoringCase(s: string)
    ensures CaseInsensitiveEquals(Uppercase(s), s)
  {
    forall i | 0 <= i < |s| ensures ToLower(Uppercase(s)[i]) == ToLower(s[i]) {
    }
  }

  /** No string is less than itself. */
  lemma {:induction false} LessIrreflexive(t: string)
    ensures !CaseInsensitiveLess(t, t)
  {
    if t != [] {
      LessIrreflexive(t[1..]);
    }
  }

  /** The order is transitive. */
  lemma {:induction false} LessTransitive(a: string, b: string, c: string)
    requires CaseInsensitiveLess(a, b) && CaseInsensitiveLess(b, c)
    ensures CaseInsensitiveLess(a, c)
  {
    if a != [] && ToLower(a[0]) == ToLower(b[0]) && ToLower(b[0]) == ToLower(c[0]) {
      LessTransitive(a[1..], b[1..], c[1..]);
    }
  }

  /** Neither of two strings is less than the other exactly when they are equal ignoring case. */
  lemma {:induction false} LessEquivalence(t: string, u: string)
    ensures !CaseInsensitiveLess(t, u) && !CaseInsensitiveLess(u, t) <==> CaseInsensitiveEquals(t, u)
  {
    if t != [] && u != [] {
      LessEquivalence(t[1..], u[1..]);
    }
  }

  /** A proper prefix is less than its extension. */
  lemma {:induction false} PrefixLess(t: string, u: string)
    requires |t| < |u| && t == u[..|t|]
    ensures CaseInsensitiveLess(t, u)
  {
    if t != [] {
      assert t[1..] == u[1..][..|t| - 1];
      PrefixLess(t[1..], u[1..]);
    }
  }

  /**
   * Two keys are equivalent under `CaseInsensitiveLess` (neither is less)
   * exactly when they lower-case to the same string, so a map ordered by it
   * holds one entry per lower-cased key.
   */
  lemma {:induction false} EquivalentIffSameFold(t: string, u: string)
    ensures !CaseInsensitiveLess(t, u) && !CaseInsensitiveLess(u, t) <==> Fold(t) == Fold(u)
  {
    LessEquivalence(t, u);
    if CaseInsensitiveEquals(t, u) {
      assert Fold(t) == Fold(u);
    }
  }
}
