/**
 * Character classes and declarative readings of the regular expressions in
 * Command/Validators.php. Each shape predicate describes the set of strings
 * its pattern accepts; none of them mirrors how PCRE backtracks.
 */
module Patterns {
  import opened Php

  // ---------------------------------------------------------------------------
  // Character classes
  // ---------------------------------------------------------------------------

  predicate IsLetter(c: char) { 'a' <= c <= 'z' || 'A' <= c <= 'Z' }

  predicate IsLowerLetter(c: char) { 'a' <= c <= 'z' }

  predicate IsAlnum(c: char) { IsLetter(c) || IsDigit(c) }

  /** `[a-zA-Z0-9_-]` */
  predicate IsNameChar(c: char) { IsAlnum(c) || c == '_' || c == '-' }

  /** `[a-zA-Z0-9_]` */
  predicate IsWordChar(c: char) { IsAlnum(c) || c == '_' }

  /** `[a-z0-9_-]` */
  predicate IsHookChar(c: char) { IsLowerLetter(c) || IsDigit(c) || c == '_' || c == '-' }

  /** `\s` in a non-UTF pattern: space, tab, LF, VT, FF and CR. */
  predicate IsSpace(c: char) {
    c == ' ' || c == '\t' || c == '\n' || c == 0x0B as char || c == 0x0C as char || c == '\r'
  }

  /** `[a-zA-Z0-9.\-\_\s]` */
  predicate IsTextChar(c: char) { IsAlnum(c) || c == '.' || c == '-' || c == '_' || IsSpace(c) }

  /** `[a-zA-Z0-9.,\-\_\s]` */
  predicate IsAuthorChar(c: char) { IsTextChar(c) || c == ',' }

  /**
   * `[a-zA-Z0-9_-\x7f-\xff]` as PCRE parses it: `_-\x7f` is the range from
   * `_` (0x5F) to 0x7F, the hyphen after that range is a literal `-`, and
   * `\xff` is the single byte 0xFF.
   */
  predicate IsPackageChar(c: char) {
    IsAlnum(c) || ('_' <= c <= 0x7F as char) || c == '-' || c == 0xFF as char
  }

  /** `[a-zA-Z_\x7f-\xff]`: the first byte of a PHP identifier. */
  predicate IsIdentStart(c: char) { IsLetter(c) || c == '_' || (0x7F as char <= c <= 0xFF as char) }

  /** `[a-zA-Z0-9_\x7f-\xff]`: any later byte of a PHP identifier. */
  predicate IsIdentChar(c: char) { IsIdentStart(c) || IsDigit(c) }

  predicate AllChars(s: string, p: char -> bool) {
    forall i :: 0 <= i < |s| ==> p(s[i])
  }

  // ---------------------------------------------------------------------------
  // Anchors
  // ---------------------------------------------------------------------------

  predicate EndsWithNewline(s: string) { |s| > 0 && s[|s| - 1] == '\n' }

  /** `s` without one final line feed, if it has one. */
  function DropFinalNewline(s: string): (r: string)
    ensures EndsWithNewline(s) ==> s == r + "\n"
    ensures !EndsWithNewline(s) ==> r == s
  {
    if EndsWithNewline(s) then s[..|s| - 1] else s
  }

  /**
   * `/^B$/` without the `D` modifier: `$` matches at the very end of the
   * subject and also just before one final line feed.
   */
  predicate Anchored(s: string, body: string -> bool): (r: bool)
    ensures body(s) ==> r
    ensures r && !EndsWithNewline(s) ==> body(s)
    ensures r && EndsWithNewline(s) ==> body(s) || body(s[..|s| - 1])
  {
    body(s) || (EndsWithNewline(s) && body(s[..|s| - 1]))
  }

  /** For a class pattern `^(?:[C]*)$`, the anchor quirk only forgives one final line feed. */
  lemma AnchoredAllChars(s: string, body: string -> bool, p: char -> bool)
    requires forall x :: body(x) <==> AllChars(x, p)
    ensures Anchored(s, body) <==> AllChars(DropFinalNewline(s), p)
  {
    if EndsWithNewline(s) {
      assert s == s[..|s| - 1] + "\n";
    }
  }

  /** For `^[C]+$` with a class `C` that excludes the line feed. */
  lemma AnchoredSomeChars(s: string, body: string -> bool, p: char -> bool)
    requires forall x :: body(x) <==> |x| > 0 && AllChars(x, p)
    requires !p('\n')
    ensures Anchored(s, body) <==> |DropFinalNewline(s)| > 0 && AllChars(DropFinalNewline(s), p)
  {
    if EndsWithNewline(s) {
      assert !p(s[|s| - 1]);
    }
  }

  /** For `^[C]+$` with a class `C` that contains the line feed, the quirk changes nothing. */
  lemma AnchoredSomeCharsWithNewline(s: string, body: string -> bool, p: char -> bool)
    requires forall x :: body(x) <==> |x| > 0 && AllChars(x, p)
    requires p('\n')
    ensures Anchored(s, body) <==> |s| > 0 && AllChars(s, p)
  {
    if EndsWithNewline(s) && body(s[..|s| - 1]) {
      assert forall i :: 0 <= i < |s| - 1 ==> s[i] == s[..|s| - 1][i];
    }
  }

  /** A trimmed string never ends in a line feed, so the anchor quirk cannot apply. */
  lemma AnchoredTrimmed(s: string, body: string -> bool)
    ensures Anchored(Trim(s), body) <==> body(Trim(s))
  {
  }

  // ---------------------------------------------------------------------------
  // Bodies of the class patterns
  // ---------------------------------------------------------------------------

  /** `(?:[a-zA-Z0-9_-]*-?)+`: any run of name bytes, the empty one included. */
  predicate NameRun(s: string) { AllChars(s, IsNameChar) }

  /** `[a-zA-Z0-9_-]+` */
  predicate NameRunNonEmpty(s: string) { |s| > 0 && AllChars(s, IsNameChar) }

  /** `[a-zA-Z0-9_]+` */
  predicate WordRunNonEmpty(s: string) { |s| > 0 && AllChars(s, IsWordChar) }

  /** `(?:[a-zA-Z0-9_]*?)+` */
  predicate WordRun(s: string) { AllChars(s, IsWordChar) }

  /** `(?:[a-z0-9_-]*-?)+` */
  predicate HookRun(s: string) { AllChars(s, IsHookChar) }

  /** `[a-zA-Z0-9.\-\_\s]+` */
  predicate TextRunNonEmpty(s: string) { |s| > 0 && AllChars(s, IsTextChar) }

  /** `[a-zA-Z0-9.,\-\_\s]+` */
  predicate AuthorRunNonEmpty(s: string) { |s| > 0 && AllChars(s, IsAuthorChar) }

  /** `(?:[a-zA-Z0-9.,\-\_\s]?)+` */
  predicate AuthorRun(s: string) { AllChars(s, IsAuthorChar) }

  predicate IsPackageCharOrBackslash(c: char) { IsPackageChar(c) || c == '\\' }

  /** `(?:[a-zA-Z0-9_-\x7f-\xff]*\\?)+`: package bytes and backslashes in any order. */
  predicate PackageRun(s: string) { AllChars(s, IsPackageCharOrBackslash) }

  // ---------------------------------------------------------------------------
  // Building blocks of the long patterns
  // ---------------------------------------------------------------------------

  /**
   * `(?:W\\?)+` where `W` is one `start` byte followed by `cont` bytes:
   * identifiers, each optionally followed by a single backslash.
   */
  predicate BackslashPath(s: string, start: char -> bool, cont: char -> bool) {
    && |s| > 0
    && start(s[0])
    && (forall i :: 0 <= i < |s| ==> cont(s[i]) || s[i] == '\\')
    && (forall i :: 0 <= i < |s| - 1 && s[i] == '\\' ==> start(s[i + 1]))
  }

  /**
   * `(-W)+`, or `(-W\\?)+` when `backslash` holds: one or more identifiers
   * each introduced by a hyphen (and optionally followed by a backslash).
   */
  predicate DashUnits(s: string, start: char -> bool, cont: char -> bool, backslash: bool) {
    && |s| >= 2
    && s[0] == '-'
    && (forall i :: 0 <= i < |s| ==> cont(s[i]) || s[i] == '-' || (backslash && s[i] == '\\'))
    && (forall i :: 0 <= i < |s| - 1 && s[i] == '-' ==> start(s[i + 1]))
    && (forall i :: 0 <= i < |s| - 1 && s[i] == '\\' ==> s[i + 1] == '-')
    && s[|s| - 1] != '-'
  }

  /** `[a-zA-Z][a-zA-Z0-9_]*`, and also `([a-zA-Z][a-zA-Z0-9_]*)+`, which denotes the same strings. */
  predicate Word(s: string) {
    |s| > 0 && IsLetter(s[0]) && AllChars(s, IsWordChar)
  }

  /** `(.W)+` with `W` a `Word`: the unescaped `.` is any byte except a line feed. */
  predicate DotUnits(s: string)
    decreases |s|
  {
    && |s| >= 2
    && s[0] != '\n'
    && exists k :: 2 <= k <= |s| && Word(s[1..k]) && (k == |s| || DotUnits(s[k..]))
  }

  /** A literal pattern whose unescaped `.` bytes match any byte except a line feed. */
  predicate DotPattern(s: string, pattern: string) {
    && |s| == |pattern|
    && forall i :: 0 <= i < |s| ==> if pattern[i] == '.' then s[i] != '\n' else s[i] == pattern[i]
  }

  // ---------------------------------------------------------------------------
  // The long patterns
  // ---------------------------------------------------------------------------

  /**
   * Command/Validators.php:103 without its anchors: a backslash path of
   * identifiers, then the module type `t` literally, then one or more
   * `-identifier` groups.
   */
  predicate PackageShape(s: string, t: string): (r: bool)
    ensures r ==> |s| >= |t| + 3 && IsIdentStart(s[0])
  {
    exists i ::
      && 0 <= i && i + |t| <= |s|
      && BackslashPath(s[..i], IsIdentStart, IsIdentChar)
      && s[i..i + |t|] == t
      && DashUnits(s[i + |t|..], IsIdentStart, IsIdentChar, false)
  }

  /** Command/Validators.php:103 with its anchors. */
  predicate PackageMatch(s: string, t: string): (r: bool)
    ensures PackageShape(s, t) ==> r
    ensures r ==> |s| >= |t| + 3 && IsIdentStart(s[0])
  {
    Anchored(s, x => PackageShape(x, t))
  }

  /**
   * Command/Validators.php:185 without its anchors: a backslash path, the
   * word `channel`, and then `ChannelRest`.
   */
  predicate ChannelShape(c: string): (r: bool)
    ensures r ==> |c| >= 8 && IsLetter(c[0])
  {
    exists i ::
      && 0 <= i && i + 7 <= |c|
      && BackslashPath(c[..i], IsLetter, IsWordChar)
      && c[i..i + 7] == "channel"
      && ChannelRest(c[i + 7..])
  }

  /** `(-(?:W\\?))+` followed by `ChannelTail`. */
  predicate ChannelRest(r: string) {
    exists j :: 0 <= j <= |r| && DashUnits(r[..j], IsLetter, IsWordChar, true) && ChannelTail(r[j..])
  }

  /** `(W)(-(?:W))+`: a word and one or more `-word` groups. */
  predicate ChannelTail(r: string) {
    exists k :: 0 <= k <= |r| && Word(r[..k]) && DashUnits(r[k..], IsLetter, IsWordChar, false)
  }

  const LocationPrefix: string := "campaignchain.location."
  const OperationPrefix: string := "campaignchain.operation."

  /**
   * Command/Validators.php:212 (`prefix` = `LocationPrefix`) and :234
   * (`prefix` = `OperationPrefix`) without their anchors: the prefix with its
   * dots as wildcards, and then `WordThenDots`.
   */
  predicate ParameterShape(s: string, prefix: string): (r: bool)
    ensures r ==> |s| > |prefix| && IsLetter(s[|prefix|])
  {
    && |prefix| <= |s|
    && DotPattern(s[..|prefix|], prefix)
    && WordThenDots(s[|prefix|..])
  }

  /** `([a-zA-Z][a-zA-Z0-9_]*)+` followed by `TwoDotGroups`. */
  predicate WordThenDots(r: string) {
    exists i :: 0 < i <= |r| && Word(r[..i]) && TwoDotGroups(r[i..])
  }

  /** `(.W)+(.W)+` */
  predicate TwoDotGroups(r: string) {
    exists j :: 0 < j < |r| && DotUnits(r[..j]) && DotUnits(r[j..])
  }

  // ---------------------------------------------------------------------------
  // Consequences of the long patterns
  // ---------------------------------------------------------------------------

  /** `w` occurs in `s` at offset `i`. */
  predicate OccursAt(s: string, w: string, i: int) {
    0 <= i && i + |w| <= |s| && s[i..i + |w|] == w
  }

  /**
   * A package shape contains the type token immediately followed by a hyphen
   * and an identifier start, begins with an identifier start and ends with an
   * identifier byte.
   */
  lemma PackageShapeConsequences(s: string, t: string)
    requires PackageShape(s, t)
    ensures exists i :: OccursAt(s, t + "-", i) && i + |t| + 1 < |s| && IsIdentStart(s[i + |t| + 1])
    ensures |s| > 0 && IsIdentStart(s[0]) && IsIdentChar(s[|s| - 1])
  {
    var i :| && 0 <= i && i + |t| <= |s|
              && BackslashPath(s[..i], IsIdentStart, IsIdentChar)
              && s[i..i + |t|] == t
              && DashUnits(s[i + |t|..], IsIdentStart, IsIdentChar, false);
    var d := s[i + |t|..];
    assert d[0] == '-' && IsIdentStart(d[1]);
    assert s[i..i + |t| + 1] == t + "-";
    assert OccursAt(s, t + "-", i);
    assert s[0] == s[..i][0];
    assert s[|s| - 1] == d[|d| - 1];
  }

  /** A `DotUnits` string is at least two bytes long and ends in a word byte. */
  lemma {:induction false} DotUnitsConsequences(s: string)
    requires DotUnits(s)
    ensures |s| >= 2 && IsWordChar(s[|s| - 1])
    decreases |s|
  {
    var k :| 2 <= k <= |s| && Word(s[1..k]) && (k == |s| || DotUnits(s[k..]));
    if k == |s| {
      assert s[|s| - 1] == s[1..k][k - 2];
    } else {
      DotUnitsConsequences(s[k..]);
      assert s[|s| - 1] == s[k..][|s| - k - 1];
    }
  }

  /**
   * A parameter-name shape starts with the wildcard prefix and a letter, is
   * at least five bytes longer than the prefix and ends in a word byte.
   */
  lemma ParameterShapeConsequences(s: string, prefix: string)
    requires ParameterShape(s, prefix)
    ensures |s| >= |prefix| + 5
    ensures DotPattern(s[..|prefix|], prefix)
    ensures IsLetter(s[|prefix|]) && IsWordChar(s[|s| - 1])
  {
    var r := s[|prefix|..];
    var i :| 0 < i <= |r| && Word(r[..i]) && TwoDotGroups(r[i..]);
    var g := r[i..];
    var j :| 0 < j < |g| && DotUnits(g[..j]) && DotUnits(g[j..]);
    DotUnitsConsequences(g[..j]);
    DotUnitsConsequences(g[j..]);
    assert s[|prefix|] == r[..i][0];
    assert s[|s| - 1] == g[j..][|g| - j - 1];
  }

  /** An occurrence of `w` followed by the byte `x` is an occurrence of `w + [x]`. */
  lemma ExtendOccurrence(s: string, w: string, i: int, x: char)
    requires OccursAt(s, w, i) && i + |w| < |s| && s[i + |w|] == x
    ensures OccursAt(s, w + [x], i)
  {
    assert s[i..i + |w| + 1] == s[i..i + |w|] + [x];
  }

  /** The tail of a channel name ends in a word byte. */
  lemma ChannelTailConsequences(r: string)
    requires ChannelTail(r)
    ensures |r| > 0 && IsWordChar(r[|r| - 1])
  {
    var k :| 0 <= k <= |r| && Word(r[..k]) && DashUnits(r[k..], IsLetter, IsWordChar, false);
    var d := r[k..];
    assert r[|r| - 1] == d[|d| - 1];
  }

  /** The part after `channel` starts with `-` and a letter and ends in a word byte. */
  lemma ChannelRestConsequences(r: string)
    requires ChannelRest(r)
    ensures |r| >= 2 && r[0] == '-' && IsLetter(r[1]) && IsWordChar(r[|r| - 1])
  {
    var j :| 0 <= j <= |r| && DashUnits(r[..j], IsLetter, IsWordChar, true) && ChannelTail(r[j..]);
    var d := r[..j];
    assert d[0] == '-' && IsLetter(d[1]);
    ChannelTailConsequences(r[j..]);
    assert r[|r| - 1] == r[j..][|r| - j - 1];
  }

  /**
   * A channel shape starts with a letter, contains `channel-` and ends in a
   * word byte.
   */
  lemma ChannelShapeConsequences(c: string)
    requires ChannelShape(c)
    ensures |c| > 0 && IsLetter(c[0]) && IsWordChar(c[|c| - 1])
    ensures exists i :: OccursAt(c, "channel-", i)
  {
    var i :| && 0 <= i && i + 7 <= |c|
              && BackslashPath(c[..i], IsLetter, IsWordChar)
              && c[i..i + 7] == "channel"
              && ChannelRest(c[i + 7..]);
    var r := c[i + 7..];
    ChannelRestConsequences(r);
    assert c[0] == c[..i][0];
    ExtendOccurrence(c, "channel", i, '-');
    assert "channel" + "-" == "channel-";
    assert c[|c| - 1] == r[|r| - 1];
  }
}
