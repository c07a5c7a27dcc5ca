/**
 * The PHP runtime primitives that the validators and the generator rely on,
 * modelled as pure functions. A PHP string is a byte string: here each `char`
 * stands for one byte, so only characters below U+0100 ever occur in inputs
 * that come from PHP.
 */
module Php {

  /** A PHP value as it appears in the generator's parameter arrays. */
  datatype Value =
    | Null
    | Str(s: string)
    | List(items: seq<Value>)
    | Dict(entries: map<string, Value>)

  /** A module record: a string-keyed PHP array such as `$module`. */
  type Module = map<string, Value>

  /** The module record key holding the module name suffix. */
  const SuffixKey: string := "module_name_suffix"

  // ---------------------------------------------------------------------------
  // strtolower
  // ---------------------------------------------------------------------------

  predicate IsUpper(c: char) { 'A' <= c <= 'Z' }

  /** `strtolower` on one byte: only ASCII `A`-`Z` change. */
  function LowerChar(c: char): (r: char)
    ensures !IsUpper(r)
    ensures IsUpper(c) ==> r as int == c as int + 32
    ensures !IsUpper(c) ==> r == c
  {
    if IsUpper(c) then (c as int + 32) as char else c
  }

  /** `strtolower`: byte-wise ASCII lowercasing, as in PHP 8.2 and later or under the C locale. */
  function Lower(s: string): (r: string)
    ensures |r| == |s|
    ensures forall i :: 0 <= i < |s| ==> r[i] == LowerChar(s[i])
  {
    seq(|s|, i requires 0 <= i < |s| => LowerChar(s[i]))
  }

  /** No ASCII capital letter occurs in `s`. */
  predicate IsLowerCase(s: string) {
    forall i :: 0 <= i < |s| ==> !IsUpper(s[i])
  }

  /** Lowercasing leaves exactly the strings without capitals unchanged. */
  lemma LowerFixesLowerCase(s: string)
    ensures Lower(s) == s <==> IsLowerCase(s)
    ensures IsLowerCase(Lower(s))
  {
    if Lower(s) == s {
      forall i | 0 <= i < |s| ensures !IsUpper(s[i]) {
        assert Lower(s)[i] == LowerChar(s[i]);
      }
    }
  }

  /** `strtolower` is idempotent. */
  lemma LowerIdempotent(s: string)
    ensures Lower(Lower(s)) == Lower(s)
  {
    LowerFixesLowerCase(s);
    LowerFixesLowerCase(Lower(s));
  }

  // ---------------------------------------------------------------------------
  // strtr / str_replace with one single-byte search string
  // ---------------------------------------------------------------------------

  /** `strtr($s, from, to)` (and `str_replace` for one one-byte needle). */
  function ReplaceChar(s: string, from: char, to: char): (r: string)
    ensures |r| == |s|
    ensures forall i :: 0 <= i < |s| ==> r[i] == (if s[i] == from then to else s[i])
  {
    seq(|s|, i requires 0 <= i < |s| => if s[i] == from then to else s[i])
  }

  /** After replacing `from` by `to`, no `from` remains (unless nothing changes). */
  lemma ReplaceCharRemoves(s: string, from: char, to: char)
    requires from != to
    ensures from !in ReplaceChar(s, from, to)
  {
  }

  /**
   * Swapping `a` to `b` and then every `b` to `a` is the same as replacing
   * every `b` of the original by `a`: the first swap is absorbed.
   */
  lemma ReplaceThereAndBack(s: string, a: char, b: char)
    ensures ReplaceChar(ReplaceChar(s, a, b), b, a) == ReplaceChar(s, b, a)
  {
  }

  // ---------------------------------------------------------------------------
  // substr_count
  // ---------------------------------------------------------------------------

  /** Number of occurrences of `c` in `s`. */
  function Count(s: string, c: char): (n: nat)
    ensures n <= |s|
    ensures n == 0 <==> c !in s
  {
    if s == [] then 0 else (if s[0] == c then 1 else 0) + Count(s[1..], c)
  }

  // ---------------------------------------------------------------------------
  // explode / implode with a one-byte delimiter
  // ---------------------------------------------------------------------------

  /** `explode(sep, s)`: never empty; `explode(',', "")` is `[""]`. */
  function Split(s: string, sep: char): (parts: seq<string>)
    ensures |parts| > 0
    ensures forall i :: 0 <= i < |parts| ==> sep !in parts[i]
  {
    if s == [] then [[]]
    else
      var rest := Split(s[1..], sep);
      if s[0] == sep then [[]] + rest
      else [[s[0]] + rest[0]] + rest[1..]
  }

  /** `implode(sep, parts)`: the pieces in order, a delimiter between each two. */
  function Join(parts: seq<string>, sep: char): (r: string)
    ensures parts == [] ==> r == []
    ensures |parts| > 0 ==> parts[0] <= r
  {
    if parts == [] then []
    else if |parts| == 1 then parts[0]
    else parts[0] + [sep] + Join(parts[1..], sep)
  }

  /** Joining the pieces of `explode` gives back the original string. */
  lemma {:induction false} JoinSplit(s: string, sep: char)
    ensures Join(Split(s, sep), sep) == s
  {
    if s != [] {
      var rest := Split(s[1..], sep);
      JoinSplit(s[1..], sep);
      if s[0] == sep {
        assert Split(s, sep) == [[]] + rest;
        assert Join(Split(s, sep), sep) == [] + [sep] + Join(rest, sep);
        assert s == [sep] + s[1..];
      } else {
        var parts := Split(s, sep);
        assert parts == [[s[0]] + rest[0]] + rest[1..];
        if |rest| == 1 {
          assert Join(parts, sep) == [s[0]] + rest[0];
          assert Join(rest, sep) == rest[0];
        } else {
          assert parts[1..] == rest[1..];
          assert Join(parts, sep) == [s[0]] + rest[0] + [sep] + Join(rest[1..], sep);
          assert Join(rest, sep) == rest[0] + [sep] + Join(rest[1..], sep);
        }
        assert s == [s[0]] + s[1..];
      }
    }
  }

  /** `explode` produces one piece more than there are delimiters. */
  lemma {:induction false} SplitCount(s: string, sep: char)
    ensures |Split(s, sep)| == Count(s, sep) + 1
  {
    if s != [] {
      SplitCount(s[1..], sep);
    }
  }

  /** A string without the delimiter explodes into itself. */
  lemma {:induction false} SplitWithoutSeparator(s: string, sep: char)
    requires sep !in s
    ensures Split(s, sep) == [s]
  {
    if s != [] {
      assert sep !in s[1..];
      SplitWithoutSeparator(s[1..], sep);
      assert s == [s[0]] + s[1..];
    }
  }

  /** The pieces of `explode` for `c` followed by a string whose pieces are `rest`. */
  function ExplodeCons(c: char, sep: char, rest: seq<string>): seq<string>
    requires |rest| > 0
  {
    if c == sep then [[]] + rest else [[c] + rest[0]] + rest[1..]
  }

  /** How `explode` treats the first byte of a non-empty string. */
  lemma SplitCons(c: char, t: string, sep: char)
    ensures Split([c] + t, sep) == ExplodeCons(c, sep, Split(t, sep))
  {
    assert ([c] + t)[1..] == t;
  }

  /** Prepending a byte acts on the first pieces only: appending more pieces commutes with it. */
  lemma ExplodeConsAppend(c: char, sep: char, ra: seq<string>, rb: seq<string>)
    requires |ra| > 0
    ensures ExplodeCons(c, sep, ra + rb) == ExplodeCons(c, sep, ra) + rb
  {
    if c != sep {
      assert (ra + rb)[0] == ra[0];
      assert (ra + rb)[1..] == ra[1..] + rb;
    }
  }

  /** Exploding `a + sep + b` explodes `a` and `b` independently. */
  lemma {:induction false} SplitConcat(a: string, b: string, sep: char)
    ensures Split(a + [sep] + b, sep) == Split(a, sep) + Split(b, sep)
  {
    if a == [] {
      assert a + [sep] + b == [sep] + b;
      SplitCons(sep, b, sep);
    } else {
      var c := a[0];
      var t := a[1..] + [sep] + b;
      SplitConcat(a[1..], b, sep);
      assert a + [sep] + b == [c] + t;
      SplitCons(c, t, sep);
      assert a == [c] + a[1..];
      SplitCons(c, a[1..], sep);
      ExplodeConsAppend(c, sep, Split(a[1..], sep), Split(b, sep));
    }
  }

  /** Exploding an `implode` of delimiter-free pieces gives the pieces back. */
  lemma {:induction false} SplitJoin(parts: seq<string>, sep: char)
    requires |parts| > 0
    requires forall i :: 0 <= i < |parts| ==> sep !in parts[i]
    ensures Split(Join(parts, sep), sep) == parts
  {
    SplitWithoutSeparator(parts[0], sep);
    if |parts| > 1 {
      SplitJoin(parts[1..], sep);
      SplitConcat(parts[0], Join(parts[1..], sep), sep);
      assert parts == [parts[0]] + parts[1..];
    }
  }

  // ---------------------------------------------------------------------------
  // trim
  // ---------------------------------------------------------------------------

  /** The bytes `trim` strips by default: " \t\n\r\0\x0B". */
  predicate IsTrimChar(c: char) {
    c == ' ' || c == '\t' || c == '\n' || c == '\r' || c == '\0' || c == 0x0B as char
  }

  /** Number of strippable bytes at the start of `s`. */
  function LeadingTrimCount(s: string): (k: nat)
    ensures k <= |s|
    ensures forall i :: 0 <= i < k ==> IsTrimChar(s[i])
    ensures k < |s| ==> !IsTrimChar(s[k])
  {
    if s != [] && IsTrimChar(s[0]) then 1 + LeadingTrimCount(s[1..]) else 0
  }

  /** Number of strippable bytes at the end of `s`. */
  function TrailingTrimCount(s: string): (k: nat)
    ensures k <= |s|
    ensures forall i :: |s| - k <= i < |s| ==> IsTrimChar(s[i])
    ensures k < |s| ==> !IsTrimChar(s[|s| - 1 - k])
  {
    if s != [] && IsTrimChar(s[|s| - 1]) then 1 + TrailingTrimCount(s[..|s| - 1]) else 0
  }

  /** `trim($s)` with the default character list. */
  function Trim(s: string): (r: string)
    ensures r == [] || (!IsTrimChar(r[0]) && !IsTrimChar(r[|r| - 1]))
    ensures exists i, j ::
              && 0 <= i <= j <= |s|
              && r == s[i..j]
              && (forall k :: 0 <= k < i ==> IsTrimChar(s[k]))
              && (forall k :: j <= k < |s| ==> IsTrimChar(s[k]))
  {
    var i := LeadingTrimCount(s);
    var t := s[i..];
    var n := TrailingTrimCount(t);
    var j := i + |t| - n;
    var r := t[..|t| - n];
    assert r == s[i..j];
    assert forall k :: j <= k < |s| ==> IsTrimChar(s[k]) by {
      forall k | j <= k < |s| ensures IsTrimChar(s[k]) {
        assert s[k] == t[k - i];
      }
    }
    assert 0 <= i <= j <= |s| && r == s[i..j]
           && (forall k :: 0 <= k < i ==> IsTrimChar(s[k]))
           && (forall k :: j <= k < |s| ==> IsTrimChar(s[k]));
    r
  }

  /** A string with no strippable byte at either end is its own trim. */
  lemma TrimKeepsTrimmed(s: string)
    requires s == [] || (!IsTrimChar(s[0]) && !IsTrimChar(s[|s| - 1]))
    ensures Trim(s) == s
  {
  }

  /** `trim` is idempotent. */
  lemma TrimIdempotent(s: string)
    ensures Trim(Trim(s)) == Trim(s)
  {
    TrimKeepsTrimmed(Trim(s));
  }

  // ---------------------------------------------------------------------------
  // PHP arrays: lookup, isset, empty, string conversion
  // ---------------------------------------------------------------------------

  /** `$m[$key]`: a missing key reads as `null` (with a notice). */
  function Get(m: Module, key: string): (v: Value)
    ensures key in m ==> v == m[key]
    ensures key !in m ==> v.Null?
  {
    if key in m then m[key] else Null
  }

  /**
   * `empty($v)`: null, "", "0" and the empty array are empty; every other
   * string and every non-empty array is not.
   */
  function Empty(v: Value): (r: bool)
    ensures v.Null? ==> r
    ensures v.Str? ==> (r <==> v.s in {"", "0"})
    ensures v.List? ==> (r <==> |v.items| == 0)
    ensures v.Dict? ==> (r <==> |v.entries| == 0)
  {
    match v
    case Null => true
    case Str(s) => s == "" || s == "0"
    case List(items) => items == []
    case Dict(entries) => entries == map[]
  }

  /**
   * `isset($m[$key])`: the key is present and not null. A non-empty entry is
   * always set, so `isset($m[$k]) && !empty($m[$k])` is just `!empty($m[$k])`.
   */
  function IsSet(m: Module, key: string): (r: bool)
    ensures r <==> key in m && !Get(m, key).Null?
    ensures !Empty(Get(m, key)) ==> r
  {
    key in m && !m[key].Null?
  }

  /** String conversion as done by `.`: a string is itself, null is "", an array is "Array". */
  function ToStr(v: Value): (r: string)
    ensures v.Str? ==> r == v.s
    ensures v.Null? ==> r == ""
    ensures v.List? || v.Dict? ==> r == "Array"
  {
    match v
    case Null => ""
    case Str(s) => s
    case List(_) => "Array"
    case Dict(_) => "Array"
  }

  // ---------------------------------------------------------------------------
  // Loose comparison `==` between strings
  // ---------------------------------------------------------------------------

  predicate IsDigit(c: char) { '0' <= c <= '9' }

  predicate AllDigits(s: string) {
    forall i :: 0 <= i < |s| ==> IsDigit(s[i])
  }

  /** The white space PHP 8 allows around a numeric string: space, `\t`, `\n`, `\r`, `\v` and `\f`. */
  predicate IsNumericSpace(c: char) {
    c == ' ' || c == '\t' || c == '\n' || c == '\r' || c == 0x0B as char || c == 0x0C as char
  }

  /** `s` without the numeric white space at its start. */
  function SkipLeadingSpace(s: string): (r: string)
    ensures |r| <= |s| && r == s[|s| - |r|..]
    ensures forall i :: 0 <= i < |s| - |r| ==> IsNumericSpace(s[i])
    ensures r == [] || !IsNumericSpace(r[0])
  {
    if s != [] && IsNumericSpace(s[0]) then SkipLeadingSpace(s[1..]) else s
  }

  /** `s` without the numeric white space at its end. */
  function SkipTrailingSpace(s: string): (r: string)
    ensures |r| <= |s| && r == s[..|r|]
    ensures forall i :: |r| <= i < |s| ==> IsNumericSpace(s[i])
    ensures r == [] || !IsNumericSpace(r[|r| - 1])
  {
    if s != [] && IsNumericSpace(s[|s| - 1]) then SkipTrailingSpace(s[..|s| - 1]) else s
  }

  /** What PHP reads as the number: the string without the white space around it. */
  function NumericBody(s: string): string {
    SkipTrailingSpace(SkipLeadingSpace(s))
  }

  /** An optional sign and at least one digit. */
  predicate IsSignedDigits(t: string) {
    if |t| > 0 && (t[0] == '+' || t[0] == '-') then |t| > 1 && AllDigits(t[1..])
    else |t| > 0 && AllDigits(t)
  }

  /** The value of a string of decimal digits. */
  function DigitsValue(d: string): nat
    requires AllDigits(d)
  {
    if d == [] then 0
    else DigitsValue(d[..|d| - 1]) * 10 + (d[|d| - 1] as int - '0' as int)
  }

  /** The value of an optional sign followed by digits. */
  function SignedValue(t: string): int
    requires IsSignedDigits(t)
  {
    if t[0] == '-' then -(DigitsValue(t[1..]) as int)
    else if t[0] == '+' then DigitsValue(t[1..])
    else DigitsValue(t)
  }

  /**
   * An integer numeric string as PHP 8 reads one: white space, an optional
   * sign, at least one digit, white space.
   */
  predicate IsIntegerString(s: string) {
    IsSignedDigits(NumericBody(s))
  }

  /** The value of an integer numeric string, however large. */
  function IntegerValue(s: string): int
    requires IsIntegerString(s)
  {
    SignedValue(NumericBody(s))
  }

  /** The range of a 64-bit PHP `int`. */
  const IntMin: int := -0x8000_0000_0000_0000
  const IntMax: int := 0x7FFF_FFFF_FFFF_FFFF

  /**
   * An integer numeric string whose value fits a PHP `int`. A longer one is
   * read as a float with its overflow flagged, and two such strings are then
   * compared byte for byte.
   */
  predicate IsIntString(s: string) {
    IsIntegerString(s) && IntMin <= IntegerValue(s) <= IntMax
  }

  /**
   * `$a == $b` for two strings: two integer numeric strings within the `int`
   * range compare as numbers, anything else compares byte for byte.
   */
  function LooseEquals(a: string, b: string): (r: bool)
    ensures a == b ==> r
    ensures !IsIntString(a) || !IsIntString(b) ==> (r <==> a == b)
    ensures IsIntString(a) && IsIntString(b) ==> (r <==> IntegerValue(a) == IntegerValue(b))
  {
    a == b || (IsIntString(a) && IsIntString(b) && IntegerValue(a) == IntegerValue(b))
  }

  /** Loose string equality is an equivalence: reflexive, symmetric and transitive. */
  lemma LooseEqualsEquivalence(a: string, b: string, c: string)
    ensures LooseEquals(a, a)
    ensures LooseEquals(a, b) ==> LooseEquals(b, a)
    ensures LooseEquals(a, b) && LooseEquals(b, c) ==> LooseEquals(a, c)
  {
  }

  /** A string with no white space at either end is its own numeric body. */
  lemma NumericBodyUnspaced(t: string)
    requires t == [] || (!IsNumericSpace(t[0]) && !IsNumericSpace(t[|t| - 1]))
    ensures NumericBody(t) == t
  {
  }

  /** A run of digits is an integer string; a leading zero does not change its value. */
  lemma LeadingZero(d: string)
    requires |d| > 0 && AllDigits(d)
    ensures IsIntegerString(d) && IsIntegerString("0" + d)
    ensures IntegerValue("0" + d) == IntegerValue(d) == DigitsValue(d)
  {
    DigitsValueLeadingZero(d);
    DigitsAreInteger(d);
    DigitsAreInteger("0" + d);
  }

  /** A non-empty run of digits is an integer string whose value is the digits' value. */
  lemma DigitsAreInteger(d: string)
    requires |d| > 0 && AllDigits(d)
    ensures IsIntegerString(d) && IntegerValue(d) == DigitsValue(d)
  {
    assert IsDigit(d[0]) && IsDigit(d[|d| - 1]);
    NumericBodyUnspaced(d);
  }

  /** A leading zero adds nothing to the value of a run of digits. */
  lemma {:induction false} DigitsValueLeadingZero(d: string)
    requires AllDigits(d)
    ensures AllDigits("0" + d) && DigitsValue("0" + d) == DigitsValue(d)
  {
    if d != [] {
      var e := d[..|d| - 1];
      assert ("0" + d)[..|d|] == "0" + e;
      DigitsValueLeadingZero(e);
    } else {
      assert ("0" + d)[..0] == [];
    }
  }

  /** Trailing numeric white space, a final line feed for one, leaves the number unchanged. */
  lemma TrailingSpaceIgnored(t: string, c: char)
    requires IsIntegerString(t) && IsNumericSpace(c)
    ensures IsIntegerString(t + [c]) && IntegerValue(t + [c]) == IntegerValue(t)
  {
    var u := t + [c];
    assert SkipLeadingSpace(t) != [];
    LeadingSkipExtends(t, c);
    assert SkipTrailingSpace(SkipLeadingSpace(t) + [c]) == SkipTrailingSpace(SkipLeadingSpace(t));
  }

  /** Skipping leading white space commutes with appending a byte after a non-space one. */
  lemma {:induction false} LeadingSkipExtends(t: string, c: char)
    requires SkipLeadingSpace(t) != []
    ensures SkipLeadingSpace(t + [c]) == SkipLeadingSpace(t) + [c]
  {
    if IsNumericSpace(t[0]) {
      assert (t + [c])[1..] == t[1..] + [c];
      LeadingSkipExtends(t[1..], c);
    }
  }

  /**
   * Numbers written differently are equal, and white space around them is
   * ignored.
   */
  lemma LooseEqualsExamples()
    ensures LooseEquals("01", "1")
    ensures LooseEquals("1\n", "1")
  {
    assert AllDigits("1");
    LeadingZero("1");
    assert "0" + "1" == "01";
    TrailingSpaceIgnored("1", '\n');
    assert "1" + ['\n'] == "1\n";
    assert IntegerValue("1") == 1 by { assert "1"[..0] == ""; }
  }

  /** A string that starts with a letter is not numeric, so it is compared byte for byte. */
  lemma LetterFirstNotNumeric(s: string, t: string)
    requires |s| > 0 && ('a' <= s[0] <= 'z' || 'A' <= s[0] <= 'Z')
    ensures !IsIntegerString(s)
    ensures LooseEquals(s, t) <==> s == t
  {
    assert SkipLeadingSpace(s) == s;
    var r := SkipTrailingSpace(s);
    assert r != [] ==> r[0] == s[0];
  }

  /** Two integer strings of which one leaves the `int` range are equal only byte for byte. */
  lemma OverflowComparesBytes(a: string, b: string)
    requires IsIntegerString(a) && IsIntegerString(b)
    requires IntegerValue(a) > IntMax || IntegerValue(a) < IntMin
    ensures LooseEquals(a, b) <==> a == b
  {
  }

  /**
   * `$v == $s` for an arbitrary array entry `$v` and a string `$s`: null
   * equals only the empty string, and an array never equals a string.
   */
  function LooseEqualsValue(v: Value, s: string): (r: bool)
    ensures v == Str(s) ==> r
    ensures v.Null? ==> (r <==> s == "")
    ensures v.Str? ==> (r <==> LooseEquals(v.s, s))
    ensures v.List? || v.Dict? ==> !r
  {
    match v
    case Null => s == ""
    case Str(t) => LooseEquals(t, s)
    case List(_) => false
    case Dict(_) => false
  }
}
