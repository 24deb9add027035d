/**
 * The Conan recipe's versioning (conanfile.py): `set_version` makes the
 * package version from the latest git tag and the current revision, and
 * `build` parses it back with `_parse_version` and hands the fields to
 * CMake. Both patterns are matched as Python's `re.match` does: anchored at
 * the start only, `\d+` greedy with backtracking, and an unescaped `.`
 * matching any character but a newline. Git's answers are parameters;
 * `None` stands for a git command that raised.
 */
module ConanRecipe {
  import opened Errors

  predicate IsDigit(c: char)
  {
    '0' <= c <= '9'
  }

  predicate IsHex(c: char)
  {
    IsDigit(c) || 'a' <= c <= 'f' || 'A' <= c <= 'F'
  }

  /** The length of the run of ASCII digits starting at i. */
  function DigitRun(s: string, i: nat): (r: nat)
    requires i <= |s|
    ensures i + r <= |s|
    decreases |s| - i
  {
    if i < |s| && IsDigit(s[i]) then 1 + DigitRun(s, i + 1) else 0
  }

  /** The length of the run of hexadecimal digits starting at i. */
  function HexRun(s: string, i: nat): (r: nat)
    requires i <= |s|
    ensures i + r <= |s|
    decreases |s| - i
  {
    if i < |s| && IsHex(s[i]) then 1 + HexRun(s, i + 1) else 0
  }

  /** `DigitRun` counts digits only, and stops at a non-digit or the end. */
  lemma {:induction false} DigitRunMeaning(s: string, i: nat)
    requires i <= |s|
    ensures forall k :: i <= k < i + DigitRun(s, i) ==> IsDigit(s[k])
    ensures i + DigitRun(s, i) < |s| ==> !IsDigit(s[i + DigitRun(s, i)])
    decreases |s| - i
  {
    if i < |s| && IsDigit(s[i]) {
      DigitRunMeaning(s, i + 1);
    }
  }

  /** `HexRun` counts hex digits only, and stops at a non-hex character or the end. */
  lemma {:induction false} HexRunMeaning(s: string, i: nat)
    requires i <= |s|
    ensures forall k :: i <= k < i + HexRun(s, i) ==> IsHex(s[k])
    ensures i + HexRun(s, i) < |s| ==> !IsHex(s[i + HexRun(s, i)])
    decreases |s| - i
  {
    if i < |s| && IsHex(s[i]) {
      HexRunMeaning(s, i + 1);
    }
  }

  /** The pattern `.` without DOTALL: any character except a newline, at position k. */
  predicate AnyAt(s: string, k: nat)
  {
    k < |s| && s[k] != '\n'
  }

  const DIRTY := ".dirty"

  /** The literal ".dirty" at position e. */
  predicate DirtyAt(s: string, e: nat)
  {
    e + |DIRTY| <= |s| && s[e..e + |DIRTY|] == DIRTY
  }

  /**
   * The two patterns: the tag's `v?(\d+.\d+.\d+)` and the version's
   * `(\d+).(\d+).(\d+)\+([a-fA-F0-9]+)(\.dirty)?`.
   */
  datatype Pattern = TagPattern | VersionPattern

  /**
   * Where the part of the pattern after the second `.` ends when matched
   * from k: the third digit run (greedy; in the version pattern it must be
   * followed by '+', so backing off cannot help), then for the version the
   * '+', the longest hex run and ".dirty" if present.
   */
  function TailEnd(s: string, k: nat, p: Pattern): (r: Option<nat>)
    requires k <= |s|
    ensures r.Some? ==> k < r.value <= |s|
  {
    var n3 := DigitRun(s, k);
    if n3 == 0 then None
    else match p
      case TagPattern => Some(k + n3)
      case VersionPattern =>
        var plus := k + n3;
        if plus < |s| && s[plus] == '+' && HexRun(s, plus + 1) > 0 then
          var e := plus + 1 + HexRun(s, plus + 1);
          Some(if DirtyAt(s, e) then e + |DIRTY| else e)
        else None
  }

  /** A second run of n2 digits from j, one character, and the tail after it match. */
  predicate SecondFits(s: string, j: nat, n2: nat, p: Pattern)
  {
    AnyAt(s, j + n2) && TailEnd(s, j + n2 + 1, p).Some?
  }

  /** A first run of n1 digits from i, one character, then a second run of n2 digits that fits. */
  predicate Viable(s: string, i: nat, n1: nat, n2: nat, p: Pattern)
  {
    i <= |s| && 1 <= n1 <= DigitRun(s, i) && AnyAt(s, i + n1) &&
    1 <= n2 <= DigitRun(s, i + n1 + 1) && SecondFits(s, i + n1 + 1, n2, p)
  }

  /**
   * The backtracking over the second run: lengths n2 down to 1, the first
   * that lets the rest match; none when no length does.
   */
  function SecondRun(s: string, j: nat, n2: nat, p: Pattern): (r: Option<nat>)
    requires j <= |s| && n2 <= DigitRun(s, j)
    ensures r.Some? ==> 1 <= r.value <= n2 && SecondFits(s, j, r.value, p)
    ensures r.Some? ==> forall m :: r.value < m <= n2 ==> !SecondFits(s, j, m, p)
    ensures r.None? ==> forall m :: 1 <= m <= n2 ==> !SecondFits(s, j, m, p)
    decreases n2
  {
    if n2 == 0 then None
    else if SecondFits(s, j, n2, p) then Some(n2)
    else SecondRun(s, j, n2 - 1, p)
  }

  /**
   * The backtracking over the first run: lengths n1 down to 1, each with
   * the longest second run that lets the rest match. The result is the
   * viable split that comes first in that order: the longest first run,
   * then the longest second run; none when no split is viable.
   */
  function FirstRun(s: string, i: nat, n1: nat, p: Pattern): (r: Option<(nat, nat)>)
    requires i <= |s| && n1 <= DigitRun(s, i)
    ensures r.Some? ==> r.value.0 <= n1 && Viable(s, i, r.value.0, r.value.1, p)
    ensures r.Some? ==> forall a, b :: r.value.0 < a <= n1 ==> !Viable(s, i, a, b, p)
    ensures r.Some? ==> forall b :: r.value.1 < b ==> !Viable(s, i, r.value.0, b, p)
    ensures r.None? ==> forall a, b :: 1 <= a <= n1 ==> !Viable(s, i, a, b, p)
    decreases n1
  {
    if n1 == 0 then None
    else if AnyAt(s, i + n1) then
      match SecondRun(s, i + n1 + 1, DigitRun(s, i + n1 + 1), p)
      case Some(n2) => Some((n1, n2))
      case None => FirstRun(s, i, n1 - 1, p)
    else FirstRun(s, i, n1 - 1, p)
  }

  /** Where the tag pattern's digits start: after the optional 'v' (without it they could not start at a 'v'). */
  function TagStart(s: string): (r: nat)
    ensures r <= |s| && (r == 1 <==> |s| > 0 && s[0] == 'v')
  {
    if |s| > 0 && s[0] == 'v' then 1 else 0
  }

  /**
   * `re.match(r"v?(\d+.\d+.\d+)", tag)` and its group 1: the text of the
   * first viable split, up to the end of the third digit run.
   */
  function MatchTag(s: string): (r: Option<string>)
    ensures r.None? <==> forall a, b :: !Viable(s, TagStart(s), a, b, TagPattern)
    ensures r.Some? ==> (5 <= |r.value| && TagStart(s) + |r.value| <= |s| &&
      r.value == s[TagStart(s)..TagStart(s) + |r.value|])
  {
    var start := TagStart(s);
    match FirstRun(s, start, DigitRun(s, start), TagPattern)
    case None => None
    case Some(split) =>
      var end := TailEnd(s, start + split.0 + 1 + split.1 + 1, TagPattern).value;
      Some(s[start..end])
  }

  /** The fields `_parse_version` returns. */
  datatype VersionFields = VersionFields(major: nat, minor: nat, patch: nat, commit: string, clean: bool)

  /** `int()` of a string of ASCII digits. */
  function DigitsValue(ds: string): nat
  {
    if ds == [] then 0
    else
      var c := ds[|ds| - 1];
      10 * DigitsValue(ds[..|ds| - 1]) + (if IsDigit(c) then c as int - '0' as int else 0)
  }

  /**
   * The fields of a viable split of the version pattern: the three digit
   * runs as numbers, the hex run after '+' as the commit, and `clean`
   * exactly when ".dirty" does not follow it.
   */
  function FieldsAt(version: string, n1: nat, n2: nat): VersionFields
    requires Viable(version, 0, n1, n2, VersionPattern)
  {
    var j := n1 + 1;
    var k := j + n2 + 1;
    var n3 := DigitRun(version, k);
    var h := k + n3 + 1;
    var e := h + HexRun(version, h);
    VersionFields(
      DigitsValue(version[..n1]), DigitsValue(version[j..j + n2]), DigitsValue(version[k..k + n3]),
      version[h..e], !DirtyAt(version, e))
  }

  /**
   * `_parse_version`: on a match, the fields of the first viable split;
   * `None` when the pattern does not match at the start.
   */
  function ParseVersion(version: string): (r: Option<VersionFields>)
    ensures r.None? <==> forall a, b :: !Viable(version, 0, a, b, VersionPattern)
  {
    match FirstRun(version, 0, DigitRun(version, 0), VersionPattern)
    case None => None
    case Some(split) => Some(FieldsAt(version, split.0, split.1))
  }

  /** The commit of a viable split is the non-empty hex run after the '+'. */
  lemma {:induction false} CommitOfFields(version: string, n1: nat, n2: nat)
    requires Viable(version, 0, n1, n2, VersionPattern)
    ensures |FieldsAt(version, n1, n2).commit| > 0 && AllHex(FieldsAt(version, n1, n2).commit)
  {
    var k := n1 + 1 + n2 + 1;
    var h := k + DigitRun(version, k) + 1;
    assert TailEnd(version, k, VersionPattern).Some?;
    assert h <= |version| && HexRun(version, h) > 0;
    HexRunMeaning(version, h);
    var c := FieldsAt(version, n1, n2).commit;
    assert c == version[h..h + HexRun(version, h)];
    forall q | 0 <= q < |c| ensures IsHex(c[q]) {
      assert c[q] == version[h + q];
    }
  }

  /** A parsed commit is a non-empty run of hex digits. */
  lemma {:induction false} ParsedCommitIsHex(version: string)
    requires ParseVersion(version).Some?
    ensures |ParseVersion(version).value.commit| > 0 && AllHex(ParseVersion(version).value.commit)
  {
    var split := FirstRun(version, 0, DigitRun(version, 0), VersionPattern).value;
    assert ParseVersion(version).value == FieldsAt(version, split.0, split.1);
    CommitOfFields(version, split.0, split.1);
  }

  const GIT_SHORT_HASH_LENGTH: nat := 12
  const DEFAULT_VERSION := "0.0.0"

  /** Python's `revision[:12]`. */
  function ShortHash(revision: string): (r: string)
    ensures |r| <= GIT_SHORT_HASH_LENGTH && |r| <= |revision| && r == revision[..|r|]
    ensures |revision| >= GIT_SHORT_HASH_LENGTH ==> |r| == GIT_SHORT_HASH_LENGTH
    ensures |revision| < GIT_SHORT_HASH_LENGTH ==> r == revision
  {
    if |revision| <= GIT_SHORT_HASH_LENGTH then revision else revision[..GIT_SHORT_HASH_LENGTH]
  }

  /**
   * The version `set_version` makes: the tag's numbers (or "0.0.0" when the
   * tag is missing or does not match), then, when the revision is known,
   * "+" and its first 12 characters, and ".dirty" when the tree is known
   * not to be pristine.
   */
  function ComposeVersion(latestTag: Option<string>, revision: Option<string>, pristine: Option<bool>): (r: string)
    ensures (latestTag.None? || MatchTag(latestTag.value).None?) ==>
      |DEFAULT_VERSION| <= |r| && r[..|DEFAULT_VERSION|] == DEFAULT_VERSION
    ensures revision.Some? && pristine == Some(false) ==> |DIRTY| <= |r| && r[|r| - |DIRTY|..] == DIRTY
  {
    var base := if latestTag.Some? && MatchTag(latestTag.value).Some? then MatchTag(latestTag.value).value
                else DEFAULT_VERSION;
    if revision.None? then base
    else base + "+" + ShortHash(revision.value) + (if pristine == Some(false) then DIRTY else "")
  }

  /** The recipe object, whose `version` attribute `set_version` assigns. */
  class Recipe {
    var version: string

    constructor ()
      ensures version == ""
    {
      version := "";
    }

    /**
     * `set_version`: `latestTag` is the stripped output of
     * `git describe --tags --abbrev=0`, `revision` that of
     * `git.get_revision()`, `pristine` that of `git.is_pristine()`; `None`
     * is a call that raised, which the recipe swallows.
     */
    method SetVersion(latestTag: Option<string>, revision: Option<string>, pristine: Option<bool>)
      modifies this
      ensures version == ComposeVersion(latestTag, revision, pristine)
    {
      version := DEFAULT_VERSION;
      if latestTag.Some? {
        var result := MatchTag(latestTag.value);
        if result.Some? {
          version := result.value;
        }
      }
      if revision.Some? {
        version := version + "+" + ShortHash(revision.value);
        if pristine.Some? && !pristine.value {
          version := version + DIRTY;
        }
      }
    }
  }

  /** A CMake definition's value: a number or a text. */
  datatype Definition = Number(n: nat) | Text(t: string)

  const VERSION_KEYS := {"KHEPRI_VERSION_MAJOR", "KHEPRI_VERSION_MINOR", "KHEPRI_VERSION_PATCH",
                         "KHEPRI_VERSION_COMMIT", "KHEPRI_VERSION_CLEAN"}

  /**
   * The definitions `build` hands to CMake: none when the version does not
   * parse, otherwise the five version fields, with `clean` as lower-case
   * "true" or "false".
   */
  function BuildDefinitions(version: string): (r: map<string, Definition>)
    ensures ParseVersion(version).None? ==> r == map[]
    ensures ParseVersion(version).Some? ==> (r.Keys == VERSION_KEYS &&
      r["KHEPRI_VERSION_CLEAN"] in {Text("true"), Text("false")} &&
      (r["KHEPRI_VERSION_CLEAN"] == Text("true") <==> ParseVersion(version).value.clean))
    ensures ParseVersion(version).Some? ==> (
      r["KHEPRI_VERSION_MAJOR"] == Number(ParseVersion(version).value.major) &&
      r["KHEPRI_VERSION_MINOR"] == Number(ParseVersion(version).value.minor) &&
      r["KHEPRI_VERSION_PATCH"] == Number(ParseVersion(version).value.patch) &&
      r["KHEPRI_VERSION_COMMIT"] == Text(ParseVersion(version).value.commit))
  {
    match ParseVersion(version)
    case None => map[]
    case Some(info) =>
      map["KHEPRI_VERSION_MAJOR" := Number(info.major),
          "KHEPRI_VERSION_MINOR" := Number(info.minor),
          "KHEPRI_VERSION_PATCH" := Number(info.patch),
          "KHEPRI_VERSION_COMMIT" := Text(info.commit),
          "KHEPRI_VERSION_CLEAN" := Text(if info.clean then "true" else "false")]
  }

  // ----- properties

  predicate AllDigits(d: string)
  {
    forall k :: 0 <= k < |d| ==> IsDigit(d[k])
  }

  predicate AllHex(h: string)
  {
    forall k :: 0 <= k < |h| ==> IsHex(h[k])
  }

  /** The text t occurs in s at position i. */
  predicate At(s: string, i: nat, t: string)
  {
    i + |t| <= |s| && forall q :: 0 <= q < |t| ==> s[i + q] == t[q]
  }

  /** Text at i is the slice of s from i. */
  lemma {:induction false} AtSlice(s: string, i: nat, t: string)
    requires At(s, i, t)
    ensures s[i..i + |t|] == t
  {
    forall q | 0 <= q < |t| ensures s[i..i + |t|][q] == t[q] {
      assert s[i + q] == t[q];
    }
  }

  lemma {:induction false} AtConcat(a: string, b: string)
    ensures At(a + b, 0, a) && At(a + b, |a|, b)
  {
    forall q | 0 <= q < |a| ensures (a + b)[0 + q] == a[q] {
    }
    forall q | 0 <= q < |b| ensures (a + b)[|a| + q] == b[q] {
    }
  }

  lemma {:induction false} AtSplit(s: string, i: nat, t: string, u: string)
    requires At(s, i, t + u)
    ensures At(s, i, t) && At(s, i + |t|, u)
  {
    forall q | 0 <= q < |t| ensures s[i + q] == t[q] {
      assert (t + u)[q] == t[q];
    }
    forall q | 0 <= q < |u| ensures s[i + |t| + q] == u[q] {
      assert (t + u)[|t| + q] == u[q];
      assert i + |t| + q == i + (|t| + q);
    }
  }

  lemma {:induction false} AtIndex(s: string, i: nat, t: string, q: nat)
    requires At(s, i, t) && q < |t|
    ensures s[i + q] == t[q]
  {
  }

  /** Digits at i, not followed by another digit, are the run `DigitRun` finds. */
  lemma {:induction false} DigitsAt(s: string, i: nat, d: string)
    requires At(s, i, d) && AllDigits(d)
    requires i + |d| == |s| || !IsDigit(s[i + |d|])
    ensures DigitRun(s, i) == |d|
  {
    forall q | i <= q < i + |d| ensures IsDigit(s[q]) {
      assert s[i + (q - i)] == d[q - i];
    }
    DigitRunExact(s, i, |d|);
  }

  /** Hex digits at i, not followed by another hex digit, are the run `HexRun` finds. */
  lemma {:induction false} HexAt(s: string, i: nat, h: string)
    requires At(s, i, h) && AllHex(h)
    requires i + |h| == |s| || !IsHex(s[i + |h|])
    ensures HexRun(s, i) == |h|
  {
    forall q | i <= q < i + |h| ensures IsHex(s[q]) {
      assert s[i + (q - i)] == h[q - i];
    }
    HexRunExact(s, i, |h|);
  }

  /** A run of exactly n digits from i, ended by a non-digit or the end, is what `DigitRun` finds. */
  lemma {:induction false} DigitRunExact(s: string, i: nat, n: nat)
    requires i + n <= |s| && (forall k :: i <= k < i + n ==> IsDigit(s[k]))
    requires i + n == |s| || !IsDigit(s[i + n])
    ensures DigitRun(s, i) == n
    decreases n
  {
    if n > 0 {
      DigitRunExact(s, i + 1, n - 1);
    }
  }

  /** A run of exactly n hex digits from i, ended by a non-hex character or the end, is what `HexRun` finds. */
  lemma {:induction false} HexRunExact(s: string, i: nat, n: nat)
    requires i + n <= |s| && (forall k :: i <= k < i + n ==> IsHex(s[k]))
    requires i + n == |s| || !IsHex(s[i + n])
    ensures HexRun(s, i) == n
    decreases n
  {
    if n > 0 {
      HexRunExact(s, i + 1, n - 1);
    }
  }

  /** A character the unescaped `.` accepts and that cannot extend a digit run. */
  predicate Separator(c: char)
  {
    c != '\n' && !IsDigit(c)
  }

  /** Three digit strings joined by two separators. */
  function Joined(d1: string, c1: char, d2: string, c2: char, d3: string): string
  {
    d1 + [c1] + d2 + [c2] + d3
  }

  /** Three digit strings joined by dots. */
  function Dotted(d1: string, d2: string, d3: string): string
  {
    Joined(d1, '.', d2, '.', d3)
  }

  /** No digit at e: the end of s, or another character. */
  predicate EndsRun(s: string, e: nat)
  {
    e == |s| || (e < |s| && !IsDigit(s[e]))
  }

  /** Three non-empty digit groups and two separators. */
  predicate DigitGroups(d1: string, c1: char, d2: string, c2: char, d3: string)
  {
    AllDigits(d1) && AllDigits(d2) && AllDigits(d3) && |d1| > 0 && |d2| > 0 && |d3| > 0 &&
    Separator(c1) && Separator(c2)
  }

  /** The three digit groups and the two separators each at its own position from i. */
  predicate GroupsAt(s: string, i: nat, d1: string, c1: char, d2: string, c2: char, d3: string)
  {
    i + |d1| + 1 + |d2| + 1 + |d3| <= |s| &&
    At(s, i, d1) && s[i + |d1|] == c1 && At(s, i + |d1| + 1, d2) && s[i + |d1| + 1 + |d2|] == c2 &&
    At(s, i + |d1| + 1 + |d2| + 1, d3)
  }

  /** The parts of joined text at i, each at its own position. */
  lemma {:induction false} JoinedAt(s: string, i: nat, d1: string, c1: char, d2: string, c2: char, d3: string)
    requires At(s, i, Joined(d1, c1, d2, c2, d3))
    ensures |Joined(d1, c1, d2, c2, d3)| == |d1| + 1 + |d2| + 1 + |d3|
    ensures GroupsAt(s, i, d1, c1, d2, c2, d3)
  {
    AtSplit(s, i, d1 + [c1] + d2 + [c2], d3);
    AtSplit(s, i, d1 + [c1] + d2, [c2]);
    AtSplit(s, i, d1 + [c1], d2);
    AtSplit(s, i, d1, [c1]);
    AtIndex(s, i + |d1|, [c1], 0);
    AtIndex(s, i + |d1| + 1 + |d2|, [c2], 0);
  }

  /** The longest digit runs from i, n1 and n2 digits long, form a viable split. */
  predicate LongestViable(s: string, i: nat, n1: nat, n2: nat, p: Pattern)
  {
    Viable(s, i, n1, n2, p) && DigitRun(s, i) == n1 && DigitRun(s, i + n1 + 1) == n2
  }

  /** Where the tag's digits start, the longest runs form a viable split, and the third run is n3 digits long. */
  predicate TagRuns(s: string, i: nat, n1: nat, n2: nat, n3: nat)
  {
    TagStart(s) == i && LongestViable(s, i, n1, n2, TagPattern) && DigitRun(s, i + n1 + 1 + n2 + 1) == n3
  }

  /** From the start, the longest runs form a viable split of the version pattern, with a third run of n3 digits and a hash of nh. */
  predicate VersionRuns(s: string, n1: nat, n2: nat, n3: nat, nh: nat)
  {
    LongestViable(s, 0, n1, n2, VersionPattern) && DigitRun(s, n1 + 1 + n2 + 1) == n3 &&
    n1 + 1 + n2 + 1 + n3 < |s| && HexRun(s, n1 + 1 + n2 + 1 + n3 + 1) == nh
  }

  /** When the longest runs form a viable split, the backtracking returns it without backing off. */
  lemma {:induction false} FirstSplit(s: string, i: nat, n1: nat, n2: nat, p: Pattern)
    requires LongestViable(s, i, n1, n2, p)
    ensures FirstRun(s, i, n1, p) == Some((n1, n2))
  {
    assert SecondRun(s, i + n1 + 1, n2, p) == Some(n2);
  }

  /**
   * When the longest digit runs from where the tag's digits start form a
   * viable split, the group is the text up to the end of the third run.
   */
  lemma {:induction false} TagAt(s: string, i: nat, n1: nat, n2: nat, n3: nat, t: string)
    requires TagRuns(s, i, n1, n2, n3)
    requires At(s, i, t) && |t| == n1 + 1 + n2 + 1 + n3
    ensures MatchTag(s) == Some(t)
  {
    FirstSplit(s, i, n1, n2, TagPattern);
    AtSlice(s, i, t);
  }

  /**
   * When the longest digit runs from the start form a viable split of the
   * version pattern, the fields are those runs, the hex run after the '+'
   * and the absence of ".dirty" after it.
   */
  lemma {:induction false} VersionAt(s: string, n1: nat, n2: nat, n3: nat, nh: nat, f: VersionFields)
    requires VersionRuns(s, n1, n2, n3, nh)
    requires FieldsOfSlices(s, n1, n2, n3, nh, f)
    ensures ParseVersion(s) == Some(f)
  {
    FirstSplit(s, 0, n1, n2, VersionPattern);
    assert ParseVersion(s) == Some(FieldsAt(s, n1, n2));
    FieldsOfRuns(s, n1, n2, n3, nh);
  }

  /** The fields read from the runs of n1, n2 and n3 digits and the hash of nh characters after them are f. */
  predicate FieldsOfSlices(s: string, n1: nat, n2: nat, n3: nat, nh: nat, f: VersionFields)
  {
    n1 + 1 + n2 + 1 + n3 + 1 + nh <= |s| &&
    f == VersionFields(
      DigitsValue(s[..n1]), DigitsValue(s[n1 + 1..n1 + 1 + n2]), DigitsValue(s[n1 + 1 + n2 + 1..n1 + 1 + n2 + 1 + n3]),
      s[n1 + 1 + n2 + 1 + n3 + 1..n1 + 1 + n2 + 1 + n3 + 1 + nh], !DirtyAt(s, n1 + 1 + n2 + 1 + n3 + 1 + nh))
  }

  lemma {:induction false} FieldsOfRuns(s: string, n1: nat, n2: nat, n3: nat, nh: nat)
    requires VersionRuns(s, n1, n2, n3, nh)
    ensures FieldsAt(s, n1, n2) == VersionFields(
      DigitsValue(s[..n1]), DigitsValue(s[n1 + 1..n1 + 1 + n2]), DigitsValue(s[n1 + 1 + n2 + 1..n1 + 1 + n2 + 1 + n3]),
      s[n1 + 1 + n2 + 1 + n3 + 1..n1 + 1 + n2 + 1 + n3 + 1 + nh], !DirtyAt(s, n1 + 1 + n2 + 1 + n3 + 1 + nh))
  {
    var f := FieldsAt(s, n1, n2);
    assert f.major == DigitsValue(s[..n1]);
    assert f.minor == DigitsValue(s[n1 + 1..n1 + 1 + n2]);
    assert f.patch == DigitsValue(s[n1 + 1 + n2 + 1..n1 + 1 + n2 + 1 + n3]);
    assert f.commit == s[n1 + 1 + n2 + 1 + n3 + 1..n1 + 1 + n2 + 1 + n3 + 1 + nh];
    assert f.clean == !DirtyAt(s, n1 + 1 + n2 + 1 + n3 + 1 + nh);
  }

  /**
   * Digit groups at i, j and k, split by separators and not followed by a
   * digit at e: the runs are the groups, and the separators are accepted
   * by `.`.
   */
  lemma {:induction false} GroupRuns(s: string, i: nat, j: nat, k: nat, e: nat, d1: string, c1: char, d2: string, c2: char, d3: string)
    requires DigitGroups(d1, c1, d2, c2, d3)
    requires j == i + |d1| + 1 && k == j + |d2| + 1 && e == k + |d3|
    requires GroupsAt(s, i, d1, c1, d2, c2, d3)
    requires EndsRun(s, e)
    ensures DigitRun(s, i) == |d1| && DigitRun(s, j) == |d2| && DigitRun(s, k) == |d3|
    ensures AnyAt(s, j - 1) && AnyAt(s, k - 1)
  {
    DigitsAt(s, i, d1);
    DigitsAt(s, j, d2);
    DigitsAt(s, k, d3);
  }

  /** The parts of the text "prefix, joined digits, rest", each at its own position. */
  lemma {:induction false} TagTextParts(pre: string, t: string, rest: string)
    ensures At(pre + t + rest, 0, pre) && At(pre + t + rest, |pre|, t) && At(pre + t + rest, |pre| + |t|, rest)
    ensures |pre + t + rest| == |pre| + |t| + |rest|
  {
    AtConcat(pre + t, rest);
    AtSplit(pre + t + rest, 0, pre, t);
  }

  /** The runs of a tag made of an optional 'v', joined digit groups and text that does not start with a digit. */
  lemma {:induction false} TagRunsOf(s: string, v: bool, d1: string, c1: char, d2: string, c2: char, d3: string, rest: string)
    requires AllDigits(d1) && AllDigits(d2) && AllDigits(d3) && |d1| > 0 && |d2| > 0 && |d3| > 0
    requires Separator(c1) && Separator(c2)
    requires rest == [] || !IsDigit(rest[0])
    requires var pre := if v then "v" else "";
      At(s, 0, pre) && At(s, |pre|, Joined(d1, c1, d2, c2, d3)) && At(s, |pre| + |Joined(d1, c1, d2, c2, d3)|, rest) &&
      |s| == |pre| + |Joined(d1, c1, d2, c2, d3)| + |rest|
    ensures TagRuns(s, if v then 1 else 0, |d1|, |d2|, |d3|)
    ensures |Joined(d1, c1, d2, c2, d3)| == |d1| + 1 + |d2| + 1 + |d3|
  {
    var pre := if v then "v" else "";
    var i := |pre|;
    if rest != [] {
      AtIndex(s, i + |Joined(d1, c1, d2, c2, d3)|, rest, 0);
    }
    assert EndsRun(s, i + |Joined(d1, c1, d2, c2, d3)|);
    JoinedAt(s, i, d1, c1, d2, c2, d3);
    GroupRuns(s, i, i + |d1| + 1, i + |d1| + 1 + |d2| + 1, i + |d1| + 1 + |d2| + 1 + |d3|, d1, c1, d2, c2, d3);
    assert TagStart(s) == i by {
      if v {
        AtIndex(s, 0, pre, 0);
      } else {
        AtIndex(s, 0, d1, 0);
      }
    }
    assert Viable(s, i, |d1|, |d2|, TagPattern);
  }

  /**
   * A tag of three digit groups joined by any two separators, after an
   * optional 'v' and followed by anything that does not start with a
   * digit, yields exactly the joined groups.
   */
  lemma {:induction false} TagOfJoined(v: bool, d1: string, c1: char, d2: string, c2: char, d3: string, rest: string)
    requires AllDigits(d1) && AllDigits(d2) && AllDigits(d3) && |d1| > 0 && |d2| > 0 && |d3| > 0
    requires Separator(c1) && Separator(c2)
    requires rest == [] || !IsDigit(rest[0])
    ensures MatchTag((if v then "v" else "") + Joined(d1, c1, d2, c2, d3) + rest) == Some(Joined(d1, c1, d2, c2, d3))
  {
    var pre := if v then "v" else "";
    var t := Joined(d1, c1, d2, c2, d3);
    var s := pre + t + rest;
    TagTextParts(pre, t, rest);
    assert At(s, 0, pre) && At(s, |pre|, t) && At(s, |pre| + |t|, rest) && |s| == |pre| + |t| + |rest|;
    TagRunsOf(s, v, d1, c1, d2, c2, d3, rest);
    TagAt(s, |pre|, |d1|, |d2|, |d3|, t);
  }

  /** The version text for three joined digit groups, a hash, a dirty flag and trailing text. */
  function VersionText(t: string, hash: string, dirty: bool, rest: string): string
  {
    t + "+" + hash + (if dirty then DIRTY else "") + rest
  }

  /** The parts of a version text, each at its own position; n is the length of the joined groups. */
  lemma {:induction false} VersionTextParts(t: string, n: nat, hash: string, dirty: bool, rest: string)
    requires n == |t|
    ensures var s := VersionText(t, hash, dirty, rest);
      var x := if dirty then DIRTY else "";
      At(s, 0, t) && n < |s| && s[n] == '+' && At(s, n + 1, hash) && At(s, n + 1 + |hash|, x) &&
      At(s, n + 1 + |hash| + |x|, rest) && |s| == n + 1 + |hash| + |x| + |rest|
  {
    var s := VersionText(t, hash, dirty, rest);
    var x := if dirty then DIRTY else "";
    AtConcat(t + "+" + hash + x, rest);
    AtSplit(s, 0, t + "+" + hash, x);
    AtSplit(s, 0, t + "+", hash);
    AtSplit(s, 0, t, "+");
    AtIndex(s, n, "+", 0);
  }

  /** Text that does not start with ".dirty" placed at the end of s leaves no ".dirty" at its position. */
  lemma {:induction false} NotDirtyAt(s: string, e: nat, rest: string)
    requires At(s, e, rest) && e + |rest| == |s| && !DirtyAt(rest, 0)
    ensures !DirtyAt(s, e)
  {
    if |rest| >= |DIRTY| {
      assert s[e..e + |DIRTY|] == rest[0..|DIRTY|] by {
        forall q | 0 <= q < |DIRTY| ensures s[e..e + |DIRTY|][q] == rest[0..|DIRTY|][q] {
          assert s[e + q] == rest[q];
        }
      }
    }
  }

  /** The hash at h and the optional ".dirty" at e, then `rest`, up to the end of s. */
  lemma {:induction false} HashTail(s: string, h: nat, e: nat, hash: string, dirty: bool, rest: string)
    requires AllHex(hash) && |hash| > 0 && e == h + |hash|
    requires At(s, h, hash) && At(s, e, if dirty then DIRTY else "")
    requires At(s, e + (if dirty then |DIRTY| else 0), rest)
    requires e + (if dirty then |DIRTY| else 0) + |rest| == |s|
    requires dirty || ((rest == [] || !IsHex(rest[0])) && !DirtyAt(rest, 0))
    ensures HexRun(s, h) == |hash|
    ensures DirtyAt(s, e) <==> dirty
  {
    if dirty {
      AtIndex(s, e, DIRTY, 0);
      AtSlice(s, e, DIRTY);
    } else {
      if rest != [] {
        AtIndex(s, e, rest, 0);
      }
      NotDirtyAt(s, e, rest);
    }
    HexAt(s, h, hash);
  }

  /** The runs of a version whose digit groups and separators are in place, followed by '+' and a hash. */
  lemma {:induction false} VersionRunsOf(s: string, d1: string, c1: char, d2: string, c2: char, d3: string, nh: nat)
    requires AllDigits(d1) && AllDigits(d2) && AllDigits(d3) && |d1| > 0 && |d2| > 0 && |d3| > 0
    requires Separator(c1) && Separator(c2) && nh > 0
    requires GroupsAt(s, 0, d1, c1, d2, c2, d3)
    requires |d1| + 1 + |d2| + 1 + |d3| < |s| && s[|d1| + 1 + |d2| + 1 + |d3|] == '+'
    requires HexRun(s, |d1| + 1 + |d2| + 1 + |d3| + 1) == nh
    ensures VersionRuns(s, |d1|, |d2|, |d3|, nh)
  {
    var j := |d1| + 1;
    var k := j + |d2| + 1;
    assert DigitGroups(d1, c1, d2, c2, d3);
    assert EndsRun(s, k + |d3|);
    GroupRuns(s, 0, j, k, k + |d3|, d1, c1, d2, c2, d3);
    assert TailEnd(s, k, VersionPattern).Some?;
  }

  /** The slices where the groups and the hash lie are those groups and that hash. */
  lemma {:induction false} LaidOutSlices(s: string, d1: string, d2: string, d3: string, hash: string, dirty: bool)
    requires |d1| + 1 + |d2| + 1 + |d3| + 1 + |hash| <= |s|
    requires At(s, 0, d1) && At(s, |d1| + 1, d2) && At(s, |d1| + 1 + |d2| + 1, d3) && At(s, |d1| + 1 + |d2| + 1 + |d3| + 1, hash)
    requires DirtyAt(s, |d1| + 1 + |d2| + 1 + |d3| + 1 + |hash|) <==> dirty
    ensures FieldsOfSlices(s, |d1|, |d2|, |d3|, |hash|, VersionFields(DigitsValue(d1), DigitsValue(d2), DigitsValue(d3), hash, !dirty))
  {
    var n := |d1| + 1 + |d2| + 1 + |d3|;
    AtSlice(s, 0, d1);
    AtSlice(s, |d1| + 1, d2);
    AtSlice(s, |d1| + 1 + |d2| + 1, d3);
    AtSlice(s, n + 1, hash);
    assert s[..|d1|] == s[0..|d1|];
  }

  /** Three digit groups with their separators from the start, then '+' and a hash. */
  predicate VersionLayout(s: string, d1: string, c1: char, d2: string, c2: char, d3: string, hash: string)
  {
    DigitGroups(d1, c1, d2, c2, d3) && |hash| > 0 &&
    GroupsAt(s, 0, d1, c1, d2, c2, d3) &&
    |d1| + 1 + |d2| + 1 + |d3| < |s| && s[|d1| + 1 + |d2| + 1 + |d3|] == '+' &&
    At(s, |d1| + 1 + |d2| + 1 + |d3| + 1, hash)
  }

  /** The hash at h is the whole hex run there, and ".dirty" follows it exactly when dirty. */
  predicate HashLayout(s: string, h: nat, hash: string, dirty: bool)
  {
    h <= |s| && HexRun(s, h) == |hash| && (DirtyAt(s, h + |hash|) <==> dirty)
  }

  /** A version whose digit groups, '+' and hash are in place: the fields are the groups' values, the hash and the flag. */
  lemma {:induction false} VersionLaidOut(s: string, d1: string, c1: char, d2: string, c2: char, d3: string, hash: string, dirty: bool)
    requires VersionLayout(s, d1, c1, d2, c2, d3, hash)
    requires HashLayout(s, |d1| + 1 + |d2| + 1 + |d3| + 1, hash, dirty)
    ensures ParseVersion(s) == Some(VersionFields(DigitsValue(d1), DigitsValue(d2), DigitsValue(d3), hash, !dirty))
  {
    LaidOutSlices(s, d1, d2, d3, hash, dirty);
    VersionRunsOf(s, d1, c1, d2, c2, d3, |hash|);
    VersionAt(s, |d1|, |d2|, |d3|, |hash|, VersionFields(DigitsValue(d1), DigitsValue(d2), DigitsValue(d3), hash, !dirty));
  }

  /** The layout of a version text. */
  lemma {:induction false} VersionTextLayout(d1: string, c1: char, d2: string, c2: char, d3: string, hash: string, dirty: bool, rest: string)
    requires DigitGroups(d1, c1, d2, c2, d3) && |hash| > 0
    ensures VersionLayout(VersionText(Joined(d1, c1, d2, c2, d3), hash, dirty, rest), d1, c1, d2, c2, d3, hash)
  {
    var t := Joined(d1, c1, d2, c2, d3);
    var s := VersionText(t, hash, dirty, rest);
    var n := |d1| + 1 + |d2| + 1 + |d3|;
    assert |t| == n;
    VersionTextParts(t, n, hash, dirty, rest);
    JoinedAt(s, 0, d1, c1, d2, c2, d3);
    assert s[n] == '+' && At(s, n + 1, hash);
  }

  /** The hash and the flag of a version text. */
  lemma {:induction false} VersionTextHash(t: string, n: nat, hash: string, dirty: bool, rest: string)
    requires n == |t|
    requires AllHex(hash) && |hash| > 0
    requires dirty || ((rest == [] || !IsHex(rest[0])) && !DirtyAt(rest, 0))
    ensures HashLayout(VersionText(t, hash, dirty, rest), n + 1, hash, dirty)
  {
    var s := VersionText(t, hash, dirty, rest);
    VersionTextParts(t, n, hash, dirty, rest);
    HashTail(s, n + 1, n + 1 + |hash|, hash, dirty, rest);
  }

  /**
   * Parsing a version made of three digit groups joined by any two
   * separators, '+', a hex hash, an optional ".dirty" and trailing text
   * that cannot extend the hash or be read as ".dirty" gives back the
   * numbers, the hash and the flag.
   */
  lemma {:induction false} ParseVersionOf(d1: string, c1: char, d2: string, c2: char, d3: string, hash: string, dirty: bool, rest: string)
    requires AllDigits(d1) && AllDigits(d2) && AllDigits(d3) && |d1| > 0 && |d2| > 0 && |d3| > 0
    requires Separator(c1) && Separator(c2)
    requires AllHex(hash) && |hash| > 0
    requires dirty || ((rest == [] || !IsHex(rest[0])) && !DirtyAt(rest, 0))
    ensures ParseVersion(VersionText(Joined(d1, c1, d2, c2, d3), hash, dirty, rest)) ==
      Some(VersionFields(DigitsValue(d1), DigitsValue(d2), DigitsValue(d3), hash, !dirty))
  {
    var t := Joined(d1, c1, d2, c2, d3);
    var s := VersionText(t, hash, dirty, rest);
    assert DigitGroups(d1, c1, d2, c2, d3);
    VersionTextLayout(d1, c1, d2, c2, d3, hash, dirty, rest);
    VersionTextHash(t, |d1| + 1 + |d2| + 1 + |d3|, hash, dirty, rest);
    VersionLaidOut(s, d1, c1, d2, c2, d3, hash, dirty);
  }

  /**
   * The round trip of the recipe: a tag "[v]N.N.N..." and a hex revision
   * make a version from which `build` recovers the tag's numbers, the
   * 12-character short hash and whether the tree was pristine.
   */
  lemma {:induction false} SetVersionThenParse(v: bool, d1: string, d2: string, d3: string, rest: string, revision: string, pristine: bool)
    requires AllDigits(d1) && AllDigits(d2) && AllDigits(d3) && |d1| > 0 && |d2| > 0 && |d3| > 0
    requires rest == [] || !IsDigit(rest[0])
    requires AllHex(revision) && |revision| > 0
    ensures var version := ComposeVersion(Some((if v then "v" else "") + Dotted(d1, d2, d3) + rest), Some(revision), Some(pristine));
      ParseVersion(version) ==
        Some(VersionFields(DigitsValue(d1), DigitsValue(d2), DigitsValue(d3), ShortHash(revision), pristine))
  {
    var tag := (if v then "v" else "") + Dotted(d1, d2, d3) + rest;
    TagOfJoined(v, d1, '.', d2, '.', d3, rest);
    ComposeOfTag(tag, Dotted(d1, d2, d3), revision, pristine);
    var hash := ShortHash(revision);
    assert AllHex(hash);
    ParseVersionOf(d1, '.', d2, '.', d3, hash, !pristine, "");
  }

  /**
   * `build` after `set_version` hands CMake the tag's three numbers, the short
   * revision and whether the tree was pristine.
   */
  lemma {:induction false} BuildAfterSetVersion(v: bool, d1: string, d2: string, d3: string, rest: string, revision: string, pristine: bool)
    requires AllDigits(d1) && AllDigits(d2) && AllDigits(d3) && |d1| > 0 && |d2| > 0 && |d3| > 0
    requires rest == [] || !IsDigit(rest[0])
    requires AllHex(revision) && |revision| > 0
    ensures var defs := BuildDefinitions(ComposeVersion(Some((if v then "v" else "") + Dotted(d1, d2, d3) + rest), Some(revision), Some(pristine)));
      defs == map["KHEPRI_VERSION_MAJOR" := Number(DigitsValue(d1)),
                  "KHEPRI_VERSION_MINOR" := Number(DigitsValue(d2)),
                  "KHEPRI_VERSION_PATCH" := Number(DigitsValue(d3)),
                  "KHEPRI_VERSION_COMMIT" := Text(ShortHash(revision)),
                  "KHEPRI_VERSION_CLEAN" := Text(if pristine then "true" else "false")]
  {
    SetVersionThenParse(v, d1, d2, d3, rest, revision, pristine);
  }

  /** A matching tag and a known revision compose into the version text of the tag's numbers and the short hash. */
  lemma {:induction false} ComposeOfTag(tag: string, t: string, revision: string, pristine: bool)
    requires MatchTag(tag) == Some(t)
    ensures ComposeVersion(Some(tag), Some(revision), Some(pristine)) == VersionText(t, ShortHash(revision), !pristine, "")
  {
    var x := if !pristine then DIRTY else "";
    assert VersionText(t, ShortHash(revision), !pristine, "") == t + "+" + ShortHash(revision) + x + "";
    assert t + "+" + ShortHash(revision) + x + "" == t + "+" + ShortHash(revision) + x;
  }

  /** Without a usable tag the version starts from "0.0.0", which parses to 0.0.0 once a revision is appended. */
  lemma {:induction false} DefaultVersionParses(revision: string, pristine: bool)
    requires AllHex(revision) && |revision| > 0
    ensures ParseVersion(ComposeVersion(None, Some(revision), Some(pristine))) ==
      Some(VersionFields(0, 0, 0, ShortHash(revision), pristine))
  {
    var hash := ShortHash(revision);
    assert AllHex(hash);
    assert DEFAULT_VERSION == Dotted("0", "0", "0");
    assert ComposeVersion(None, Some(revision), Some(pristine)) == VersionText(Dotted("0", "0", "0"), hash, !pristine, "");
    ParseVersionOf("0", '.', "0", '.', "0", hash, !pristine, "");
    assert DigitsValue("0") == 0;
  }

  /** The unescaped `.` at work in the tag: any separators are accepted and kept. */
  lemma {:induction false} TagSeparatorsLoose()
    ensures MatchTag("v1-2_3") == Some("1-2_3")
  {
    assert "v1-2_3" == "v" + Joined("1", '-', "2", '_', "3") + "";
    assert Joined("1", '-', "2", '_', "3") == "1-2_3";
    TagOfJoined(true, "1", '-', "2", '_', "3", "");
  }

  /** The start-only anchor at work: text before the digits makes the tag unusable. */
  lemma {:induction false} TagAnchoredAtStart()
    ensures MatchTag("release-1.2.3") == None
  {
    assert DigitRun("release-1.2.3", 0) == 0;
  }

  /** The unescaped `.` and the missing end anchor at work in the version: any separators and trailing text are accepted. */
  lemma {:induction false} VersionPatternLoose()
    ensures ParseVersion("1-2-3+abcXYZ") == Some(VersionFields(1, 2, 3, "abc", true))
  {
    assert "1-2-3+abcXYZ" == VersionText(Joined("1", '-', "2", '-', "3"), "abc", false, "XYZ");
    ParseVersionOf("1", '-', "2", '-', "3", "abc", false, "XYZ");
    assert DigitsValue("1") == 1 && DigitsValue("2") == 2 && DigitsValue("3") == 3;
  }
}
