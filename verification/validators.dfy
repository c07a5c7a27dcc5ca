/**
 * The static validators of Command/Validators.php. Each takes the raw answer
 * (and, where the source needs them, the modules accepted so far, the module
 * type or the reserved-word list) and either returns the value the source
 * returns or the exception it throws.
 */
module Validators {
  import opened Php
  import opened Patterns

  /** The fields whose character check can fail. */
  datatype Field =
    | ModuleName
    | ModuleNameSuffix
    | PackageName
    | DisplayName
    | Description
    | AuthorName
    | VendorName
    | PackageLicense

  /** The exceptions the validators throw, one constructor per message. */
  datatype Error =
    | UnsupportedType(typ: string)
    | InvalidCharacters(field: Field)
    | NoModules
    | SuffixInUse
    | ReservedWord(word: string)
    | MissingVendor
    | MissingModuleType
    | InvalidEmail
    | InvalidUrl
    | NotTrueOrFalse
    | InvalidChannelPackages
    | InvalidHookNames
    | InvalidLocationParameter
    | InvalidOperationParameters
    | InvalidMetricNames
    | UnsupportedAnswer(answer: string)
  {
    /** The two `\RuntimeException`s; every other error is an `\InvalidArgumentException`. */
    predicate IsRuntimeException() {
      UnsupportedType? || UnsupportedAnswer?
    }
  }

  datatype Result<T> = Ok(value: T) | Err(error: Error)

  /** The module types `validateModuleType` supports, in the source's order. */
  const ModuleTypes: seq<string> :=
    ["channel", "location", "activity", "operation", "campaign",
     "milestone", "report", "security", "distribution"]

  // ---------------------------------------------------------------------------
  // Module type, name, count and suffix
  // ---------------------------------------------------------------------------

  /** `validateModuleType`: lowercases the answer and accepts the nine supported types. */
  function ValidateModuleType(typ: string): (r: Result<string>)
    ensures r.Ok? <==> Lower(typ) in ModuleTypes
    ensures r.Ok? ==> r.value == Lower(typ)
    ensures r.Ok? ==> r.value in ModuleTypes && |r.value| == |typ| && IsLowerCase(r.value)
    ensures r.Err? ==> r.error == UnsupportedType(Lower(typ)) && r.error.IsRuntimeException()
  {
    var t := Lower(typ);
    LowerFixesLowerCase(typ);
    if t !in ModuleTypes then Err(UnsupportedType(t)) else Ok(t)
  }

  /** Validating an accepted module type again returns it unchanged. */
  lemma ModuleTypeIdempotent(typ: string)
    requires ValidateModuleType(typ).Ok?
    ensures ValidateModuleType(ValidateModuleType(typ).value) == ValidateModuleType(typ)
  {
    LowerIdempotent(typ);
  }

  /** The type check ignores case: `Operation` is accepted as `operation`; `hook` is not a type. */
  lemma ModuleTypeExamples()
    ensures ValidateModuleType("Operation") == Ok("operation")
    ensures ValidateModuleType("hook") == Err(UnsupportedType("hook"))
  {
    assert Lower("Operation") == "operation";
    assert Lower("hook") == "hook";
  }

  /** `validateModuleName`: name bytes only; the empty name passes. */
  function ValidateModuleName(name: string): (r: Result<string>)
    ensures r.Ok? <==> AllChars(DropFinalNewline(name), IsNameChar)
    ensures r.Ok? ==> r.value == name
    ensures r.Err? ==> r.error == InvalidCharacters(ModuleName)
  {
    AnchoredAllChars(name, NameRun, IsNameChar);
    if !Anchored(name, NameRun) then Err(InvalidCharacters(ModuleName)) else Ok(name)
  }

  /** The empty name and hyphenated names pass; so does a name with one final line feed. */
  lemma ModuleNameExamples()
    ensures ValidateModuleName("") == Ok("")
    ensures ValidateModuleName("mail-chimp") == Ok("mail-chimp")
    ensures ValidateModuleName("twitter\n") == Ok("twitter\n")
    ensures ValidateModuleName("mail chimp").Err?
  {
    assert DropFinalNewline("twitter\n") == "twitter";
    assert !IsNameChar("mail chimp"[4]);
  }

  /** `validateModuleCount`: at least one module. */
  function ValidateModuleCount(modules: seq<Module>): (r: Result<bool>)
    ensures r.Ok? <==> |modules| > 0
    ensures r.Ok? ==> r.value
    ensures r.Err? ==> r.error == NoModules
  {
    if |modules| == 0 then Err(NoModules) else Ok(true)
  }

  /** Some module already accepted has a suffix that `==` the given one. */
  predicate SuffixTaken(suffix: string, modules: seq<Module>) {
    exists i :: 0 <= i < |modules| && LooseEqualsValue(Get(modules[i], SuffixKey), suffix)
  }

  /**
   * `validateModuleNameSuffix`. With `required` the suffix must be a
   * non-empty run of name bytes that no module in `modules` already uses;
   * without it only the byte check of `validateModuleName` applies.
   */
  function ValidateModuleNameSuffix(suffix: string, modules: seq<Module>, required: bool): (r: Result<string>)
    ensures r.Ok? ==> r.value == suffix
    ensures required ==>
              (r.Ok? <==>
                 && |DropFinalNewline(suffix)| > 0
                 && AllChars(DropFinalNewline(suffix), IsNameChar)
                 && !SuffixTaken(suffix, modules))
    ensures required && r.Ok? ==> forall i :: 0 <= i < |modules| ==> Get(modules[i], SuffixKey) != Str(suffix)
    ensures r == Err(SuffixInUse) <==> required && Anchored(suffix, NameRunNonEmpty) && SuffixTaken(suffix, modules)
    ensures r.Err? && r.error != SuffixInUse ==> r.error == InvalidCharacters(ModuleNameSuffix)
    ensures !required ==> (r.Ok? <==> AllChars(DropFinalNewline(suffix), IsNameChar))
  {
    NameRules(suffix);
    if required then
      if !Anchored(suffix, NameRunNonEmpty) then Err(InvalidCharacters(ModuleNameSuffix))
      else if SuffixTaken(suffix, modules) then Err(SuffixInUse)
      else Ok(suffix)
    else
      if !Anchored(suffix, NameRun) then Err(InvalidCharacters(ModuleNameSuffix)) else Ok(suffix)
  }

  /** The two name patterns, anchors included, as byte checks. */
  lemma NameRules(s: string)
    ensures Anchored(s, NameRun) <==> AllChars(DropFinalNewline(s), IsNameChar)
    ensures Anchored(s, NameRunNonEmpty)
            <==> |DropFinalNewline(s)| > 0 && AllChars(DropFinalNewline(s), IsNameChar)
  {
    AnchoredAllChars(s, NameRun, IsNameChar);
    AnchoredSomeChars(s, NameRunNonEmpty, IsNameChar);
  }

  /** Without `required`, the suffix obeys exactly the module-name rule. */
  lemma OptionalSuffixIsModuleName(suffix: string, modules: seq<Module>)
    ensures ValidateModuleNameSuffix(suffix, modules, false).Ok? <==> ValidateModuleName(suffix).Ok?
  {
  }

  /**
   * A batch whose every module after the first had its suffix accepted, with
   * `required`, against the modules before it.
   */
  predicate SuffixesAccepted(modules: seq<Module>) {
    forall j :: 1 <= j < |modules| ==>
      && Get(modules[j], SuffixKey).Str?
      && ValidateModuleNameSuffix(Get(modules[j], SuffixKey).s, modules[..j], true).Ok?
  }

  /** In such a batch no two modules share a suffix. */
  lemma BatchSuffixesDistinct(modules: seq<Module>)
    requires SuffixesAccepted(modules)
    ensures forall i, j :: 0 <= i < j < |modules| ==> Get(modules[i], SuffixKey) != Get(modules[j], SuffixKey)
  {
    forall i, j | 0 <= i < j < |modules|
      ensures Get(modules[i], SuffixKey) != Get(modules[j], SuffixKey)
    {
      var s := Get(modules[j], SuffixKey).s;
      assert ValidateModuleNameSuffix(s, modules[..j], true).Ok?;
      assert modules[..j][i] == modules[i];
    }
  }

  /** A well-formed suffix that `==` the suffix of an existing module is refused as in use. */
  lemma SuffixClash(suffix: string, existing: string)
    requires |DropFinalNewline(suffix)| > 0 && AllChars(DropFinalNewline(suffix), IsNameChar)
    requires LooseEquals(existing, suffix)
    ensures ValidateModuleNameSuffix(suffix, [map[SuffixKey := Str(existing)]], true) == Err(SuffixInUse)
  {
    var m: Module := map[SuffixKey := Str(existing)];
    NameRules(suffix);
    assert LooseEqualsValue(Get([m][0], SuffixKey), suffix);
  }

  /**
   * The uniqueness test is PHP's loose `==`: `01`, and `1` with the final
   * line feed the pattern lets through, both clash with an existing `1`.
   */
  lemma SuffixClashExamples()
    ensures ValidateModuleNameSuffix("01", [map[SuffixKey := Str("1")]], true) == Err(SuffixInUse)
    ensures ValidateModuleNameSuffix("1\n", [map[SuffixKey := Str("1")]], true) == Err(SuffixInUse)
  {
    LooseEqualsExamples();
    LooseEqualsEquivalence("01", "1", "1");
    LooseEqualsEquivalence("1\n", "1", "1");
    assert DropFinalNewline("01") == "01";
    SuffixClash("01", "1");
    assert DropFinalNewline("1\n") == "1";
    SuffixClash("1\n", "1");
  }

  /** A well-formed suffix that no existing suffix `==` is accepted. */
  lemma SuffixFree(suffix: string, existing: string)
    requires |DropFinalNewline(suffix)| > 0 && AllChars(DropFinalNewline(suffix), IsNameChar)
    requires !LooseEquals(existing, suffix)
    ensures ValidateModuleNameSuffix(suffix, [map[SuffixKey := Str(existing)]], true) == Ok(suffix)
  {
    var m: Module := map[SuffixKey := Str(existing)];
    NameRules(suffix);
    assert !LooseEqualsValue(Get([m][0], SuffixKey), suffix);
  }

  /** The empty suffix is refused when required and passes otherwise. */
  lemma EmptySuffixExamples()
    ensures ValidateModuleNameSuffix("", [], true) == Err(InvalidCharacters(ModuleNameSuffix))
    ensures ValidateModuleNameSuffix("", [map[SuffixKey := Str("")]], false) == Ok("")
  {
  }

  // ---------------------------------------------------------------------------
  // Package name
  // ---------------------------------------------------------------------------

  /** Index of the first word whose lowercase form is reserved, or `|words|` if none is. */
  function FirstReservedIndex(words: seq<string>, reserved: set<string>): (k: nat)
    ensures k <= |words|
    ensures forall j :: 0 <= j < k ==> Lower(words[j]) !in reserved
    ensures k < |words| ==> Lower(words[k]) in reserved
  {
    if words == [] then 0
    else if Lower(words[0]) in reserved then 0
    else 1 + FirstReservedIndex(words[1..], reserved)
  }

  /** The segments `validatePackageName` checks: split on either separator. */
  function PackageSegments(package: string): seq<string> {
    Split(ReplaceChar(package, '/', '\\'), '\\')
  }

  /**
   * `validatePackageName`: after turning `/` into `\`, the characters are
   * checked, then every segment against the reserved words (`reserved` stands
   * for the inherited `getReservedWords()`), then the vendor separator, then
   * the shape of pattern 103; the accepted name is returned with `/`.
   */
  function ValidatePackageName(package: string, moduleType: string, reserved: set<string>): (r: Result<string>)
    ensures r.Ok? ==> '/' in package || '\\' in package
    ensures r.Ok? ==> forall w :: w in PackageSegments(package) ==> Lower(w) !in reserved
    ensures r.Ok? ==> r.value == ReplaceChar(package, '\\', '/')
    ensures r.Ok? ==> exists i :: OccursAt(ReplaceChar(package, '/', '\\'), moduleType + "-", i)
                                   && i + |moduleType| + 1 < |package|
                                   && IsIdentStart(package[i + |moduleType| + 1])
    ensures r.Err? && r.error.ReservedWord? ==>
              r.error.word in PackageSegments(package) && Lower(r.error.word) in reserved
    ensures r.Err? && r.error.ReservedWord? ==>
              var words := PackageSegments(package);
              var k := FirstReservedIndex(words, reserved);
              k < |words| && r.error.word == words[k]
    ensures r == Err(MissingVendor) ==> '/' !in package && '\\' !in package
  {
    var p := ReplaceChar(package, '/', '\\');
    if !Anchored(p, PackageRun) then Err(InvalidCharacters(PackageName))
    else
      var words := Split(p, '\\');
      var k := FirstReservedIndex(words, reserved);
      if k < |words| then Err(ReservedWord(words[k]))
      else if '\\' !in p then Err(MissingVendor)
      else if !PackageMatch(p, moduleType) then Err(MissingModuleType)
      else
        ReplaceThereAndBack(package, '/', '\\');
        PackageMatchHasToken(p, moduleType);
        Ok(ReplaceChar(p, '\\', '/'))
  }

  /** Pattern 103, anchors included, forces the type token, a hyphen and an identifier start. */
  lemma PackageMatchHasToken(p: string, t: string)
    requires PackageMatch(p, t)
    ensures exists i :: OccursAt(p, t + "-", i) && i + |t| + 1 < |p| && IsIdentStart(p[i + |t| + 1])
  {
    if PackageShape(p, t) {
      PackageShapeConsequences(p, t);
    } else {
      var q := p[..|p| - 1];
      PackageShapeConsequences(q, t);
      var i :| OccursAt(q, t + "-", i) && i + |t| + 1 < |q| && IsIdentStart(q[i + |t| + 1]);
      assert p[i..i + |t + "-"|] == q[i..i + |t + "-"|];
      assert OccursAt(p, t + "-", i);
    }
  }

  /** An occurrence of a backslash-free `w` after `/` became `\` is an occurrence before. */
  lemma OccursBeforeSwap(package: string, w: string, i: int)
    requires OccursAt(ReplaceChar(package, '/', '\\'), w, i)
    requires '\\' !in w
    ensures OccursAt(package, w, i)
  {
    var p := ReplaceChar(package, '/', '\\');
    forall k | 0 <= k < |w| ensures package[i + k] == w[k] {
      assert p[i + k] == p[i..i + |w|][k];
    }
    assert package[i..i + |w|] == w;
  }

  /** When the type token has no backslash in it, it occurs in the answer as typed. */
  lemma PackageTokenAsTyped(package: string, moduleType: string, reserved: set<string>)
    requires ValidatePackageName(package, moduleType, reserved).Ok?
    requires '\\' !in moduleType
    ensures exists i :: OccursAt(package, moduleType + "-", i)
  {
    var w := moduleType + "-";
    var i :| OccursAt(ReplaceChar(package, '/', '\\'), w, i);
    OccursBeforeSwap(package, w, i);
  }

  /** Exploding `a + sep + b` where neither part holds the delimiter. */
  lemma SplitTwo(a: string, b: string, sep: char)
    requires sep !in a && sep !in b
    ensures Split(a + [sep] + b, sep) == [a, b]
  {
    SplitConcat(a, b, sep);
    SplitWithoutSeparator(a, sep);
    SplitWithoutSeparator(b, sep);
  }

  /**
   * The converse of the contract above: a package is accepted exactly when
   * it passes all four stages of `validatePackageName`.
   */
  lemma PackageNameAcceptance(package: string, moduleType: string, reserved: set<string>)
    ensures ValidatePackageName(package, moduleType, reserved).Ok?
            <==> && Anchored(ReplaceChar(package, '/', '\\'), PackageRun)
                 && (forall w :: w in PackageSegments(package) ==> Lower(w) !in reserved)
                 && ('/' in package || '\\' in package)
                 && PackageMatch(ReplaceChar(package, '/', '\\'), moduleType)
  {
    var p := ReplaceChar(package, '/', '\\');
    var words := Split(p, '\\');
    var k := FirstReservedIndex(words, reserved);
    if ('/' in package || '\\' in package) {
      var j :| 0 <= j < |package| && (package[j] == '/' || package[j] == '\\');
      assert p[j] == '\\';
    }
    if k < |words| {
      assert words[k] in words;
    }
  }

  /** The segments of a two-part package name. */
  lemma TwoSegments(vendor: string, name: string)
    requires '/' !in vendor && '\\' !in vendor && '/' !in name && '\\' !in name
    ensures ReplaceChar(vendor + "/" + name, '/', '\\') == vendor + "\\" + name
    ensures PackageSegments(vendor + "/" + name) == [vendor, name]
  {
    var s := vendor + "/" + name;
    var p := ReplaceChar(s, '/', '\\');
    assert p == vendor + "\\" + name by {
      forall i | 0 <= i < |p| ensures p[i] == (vendor + "\\" + name)[i] {
        if i < |vendor| { assert s[i] == vendor[i]; }
        else if i > |vendor| { assert s[i] == name[i - |vendor| - 1]; }
      }
    }
    assert vendor + "\\" + name == vendor + ['\\'] + name;
    SplitTwo(vendor, name, '\\');
  }

  /** Which refusal `validatePackageName` gives, stage by stage. */
  lemma PackageNameRefusals(package: string, moduleType: string, reserved: set<string>)
    ensures ValidatePackageName(package, moduleType, reserved) == Err(InvalidCharacters(PackageName))
            <==> !Anchored(ReplaceChar(package, '/', '\\'), PackageRun)
    ensures (ValidatePackageName(package, moduleType, reserved).Err?
             && ValidatePackageName(package, moduleType, reserved).error.ReservedWord?)
            <==> && Anchored(ReplaceChar(package, '/', '\\'), PackageRun)
                 && (exists w :: w in PackageSegments(package) && Lower(w) in reserved)
    ensures ValidatePackageName(package, moduleType, reserved) == Err(MissingVendor)
            <==> && Anchored(ReplaceChar(package, '/', '\\'), PackageRun)
                 && (forall w :: w in PackageSegments(package) ==> Lower(w) !in reserved)
                 && '/' !in package && '\\' !in package
    ensures ValidatePackageName(package, moduleType, reserved) == Err(MissingModuleType)
            <==> && Anchored(ReplaceChar(package, '/', '\\'), PackageRun)
                 && (forall w :: w in PackageSegments(package) ==> Lower(w) !in reserved)
                 && ('/' in package || '\\' in package)
                 && !PackageMatch(ReplaceChar(package, '/', '\\'), moduleType)
  {
    var p := ReplaceChar(package, '/', '\\');
    var words := Split(p, '\\');
    var k := FirstReservedIndex(words, reserved);
    if ('/' in package || '\\' in package) {
      var j :| 0 <= j < |package| && (package[j] == '/' || package[j] == '\\');
      assert p[j] == '\\';
    }
    if k < |words| {
      assert words[k] in words;
    }
  }

  /** A string without `from` is left alone by replacing `from`. */
  lemma ReplaceAbsent(s: string, from: char, to: char)
    requires from !in s
    ensures ReplaceChar(s, from, to) == s
  {
  }

  /** `vendor/type-name` with word-shaped parts is accepted and returned as typed. */
  lemma VendorTypeNameAccepted(vendor: string, t: string, name: string, reserved: set<string>)
    requires Word(vendor) && Word(t) && Word(name)
    requires Lower(vendor) !in reserved && Lower(t + "-" + name) !in reserved
    ensures ValidatePackageName(vendor + "/" + t + "-" + name, t, reserved)
            == Ok(vendor + "/" + t + "-" + name)
  {
    var rest := t + "-" + name;
    var package := vendor + "/" + rest;
    assert package == vendor + "/" + t + "-" + name;
    TypedRest(t, name);
    TwoSegments(vendor, rest);
    VendorRestShape(vendor, t, name);
    PackageNameAcceptance(package, t, reserved);
    ReplaceAbsent(package, '\\', '/');
  }

  /** `type-name` holds no separator and every byte is a name byte. */
  lemma TypedRest(t: string, name: string)
    requires Word(t) && Word(name)
    ensures AllChars(t + "-" + name, IsNameChar)
    ensures '/' !in t + "-" + name && '\\' !in t + "-" + name
  {
    var rest := t + "-" + name;
    forall k | 0 <= k < |rest| ensures IsNameChar(rest[k]) {
      if k < |t| { assert rest[k] == t[k]; }
      else if k > |t| { assert rest[k] == name[k - |t| - 1]; }
    }
  }

  /** `vendor\type-name` has package bytes only and the shape of pattern 103. */
  lemma VendorRestShape(vendor: string, t: string, name: string)
    requires Word(vendor) && Word(t) && Word(name)
    requires AllChars(t + "-" + name, IsNameChar)
    ensures PackageRun(vendor + "\\" + (t + "-" + name))
    ensures PackageShape(vendor + "\\" + (t + "-" + name), t)
  {
    var rest := t + "-" + name;
    var p := vendor + "\\" + rest;
    JoinedRun(vendor, rest);
    var i := |vendor| + 1;
    assert p[..i] == vendor + "\\";
    assert p[i..i + |t|] == t;
    var d := p[i + |t|..];
    assert d == "-" + name;
    forall k | 0 <= k < |d| ensures IsIdentChar(d[k]) || d[k] == '-' {
      if k > 0 { assert d[k] == name[k - 1]; }
    }
    assert DashUnits(d, IsIdentStart, IsIdentChar, false);
  }

  /** Two runs of package bytes joined by a backslash are one run. */
  lemma JoinedRun(vendor: string, rest: string)
    requires Word(vendor) && AllChars(rest, IsNameChar)
    ensures PackageRun(vendor + "\\" + rest)
  {
    var p := vendor + "\\" + rest;
    forall k | 0 <= k < |p| ensures IsPackageCharOrBackslash(p[k]) {
      if k < |vendor| { assert p[k] == vendor[k]; }
      else if k > |vendor| { assert p[k] == rest[k - |vendor| - 1]; }
    }
  }

  /** A name with no vendor separator is refused once its characters and words pass. */
  lemma NoSeparatorRefused(package: string, moduleType: string, reserved: set<string>)
    requires Word(package) && Lower(package) !in reserved
    ensures ValidatePackageName(package, moduleType, reserved) == Err(MissingVendor)
  {
    ReplaceAbsent(package, '/', '\\');
    SplitWithoutSeparator(package, '\\');
    PackageNameRefusals(package, moduleType, reserved);
  }

  /** A reserved vendor is named in the error, whatever follows it. */
  lemma ReservedVendorRefused(vendor: string, name: string, moduleType: string, reserved: set<string>)
    requires Word(vendor) && Word(name) && Lower(vendor) in reserved
    ensures ValidatePackageName(vendor + "/" + name, moduleType, reserved) == Err(ReservedWord(vendor))
  {
    TwoSegments(vendor, name);
    var p := vendor + "\\" + name;
    assert PackageRun(p) by {
      forall k | 0 <= k < |p| ensures IsPackageCharOrBackslash(p[k]) {
        if k < |vendor| { assert p[k] == vendor[k]; }
        else if k > |vendor| { assert p[k] == name[k - |vendor| - 1]; }
      }
    }
    assert FirstReservedIndex([vendor, name], reserved) == 0;
  }

  /** Without a hyphen anywhere, pattern 103 cannot match, so nothing is accepted. */
  lemma NoHyphenNeverAccepted(package: string, moduleType: string, reserved: set<string>)
    requires '-' !in package
    ensures !ValidatePackageName(package, moduleType, reserved).Ok?
  {
  }

  // ---------------------------------------------------------------------------
  // Free-text fields
  // ---------------------------------------------------------------------------

  /** `validateDisplayName`: a non-empty run of letters, digits, `.`, `-`, `_` and white space. */
  function ValidateDisplayName(name: string): (r: Result<string>)
    ensures r.Ok? <==> |name| > 0 && AllChars(name, IsTextChar)
    ensures r.Ok? ==> r.value == name
    ensures r.Err? ==> r.error == InvalidCharacters(DisplayName)
  {
    AnchoredSomeCharsWithNewline(name, TextRunNonEmpty, IsTextChar);
    if !Anchored(name, TextRunNonEmpty) then Err(InvalidCharacters(DisplayName)) else Ok(name)
  }

  /** `validateDescription`: like the author name, but the empty description passes. */
  function ValidateDescription(description: string): (r: Result<string>)
    ensures r.Ok? <==> AllChars(description, IsAuthorChar)
    ensures r.Ok? ==> r.value == description
    ensures r.Err? ==> r.error == InvalidCharacters(Description)
  {
    AnchoredAllChars(description, AuthorRun, IsAuthorChar);
    AllCharsWithoutFinalNewline(description, IsAuthorChar);
    if !Anchored(description, AuthorRun) then Err(InvalidCharacters(Description)) else Ok(description)
  }

  /** Dropping a final line feed changes nothing for a class that contains it. */
  lemma AllCharsWithoutFinalNewline(s: string, p: char -> bool)
    requires p('\n')
    ensures AllChars(DropFinalNewline(s), p) <==> AllChars(s, p)
  {
    if EndsWithNewline(s) {
      assert s == DropFinalNewline(s) + "\n";
    }
  }

  /** `validateAuthorName`: a non-empty run of display-name bytes and commas. */
  function ValidateAuthorName(name: string): (r: Result<string>)
    ensures r.Ok? <==> |name| > 0 && AllChars(name, IsAuthorChar)
    ensures r.Ok? ==> r.value == name
    ensures r.Err? ==> r.error == InvalidCharacters(AuthorName)
  {
    AnchoredSomeCharsWithNewline(name, AuthorRunNonEmpty, IsAuthorChar);
    if !Anchored(name, AuthorRunNonEmpty) then Err(InvalidCharacters(AuthorName)) else Ok(name)
  }

  /** `validateVendorName`: a non-empty run of letters, digits and `_`. */
  function ValidateVendorName(name: string): (r: Result<string>)
    ensures r.Ok? <==> |DropFinalNewline(name)| > 0 && AllChars(DropFinalNewline(name), IsWordChar)
    ensures r.Ok? ==> r.value == name
    ensures r.Err? ==> r.error == InvalidCharacters(VendorName)
  {
    AnchoredSomeChars(name, WordRunNonEmpty, IsWordChar);
    if !Anchored(name, WordRunNonEmpty) then Err(InvalidCharacters(VendorName)) else Ok(name)
  }

  /** `validatePackageLicense`: the display-name rule. */
  function ValidatePackageLicense(license: string): (r: Result<string>)
    ensures r.Ok? <==> |license| > 0 && AllChars(license, IsTextChar)
    ensures r.Ok? ==> r.value == license
    ensures r.Err? ==> r.error == InvalidCharacters(PackageLicense)
  {
    AnchoredSomeCharsWithNewline(license, TextRunNonEmpty, IsTextChar);
    if !Anchored(license, TextRunNonEmpty) then Err(InvalidCharacters(PackageLicense)) else Ok(license)
  }

  /**
   * How the free-text rules nest: a vendor name is a valid display name, a
   * display name is a valid author name, and an author name is exactly a
   * non-empty valid description. A license obeys the display-name rule.
   */
  lemma TextFieldsNest(s: string)
    ensures ValidateVendorName(s).Ok? ==> ValidateDisplayName(s).Ok?
    ensures ValidateDisplayName(s).Ok? ==> ValidateAuthorName(s).Ok?
    ensures ValidateAuthorName(s).Ok? <==> ValidateDescription(s).Ok? && |s| > 0
    ensures ValidatePackageLicense(s).Ok? <==> ValidateDisplayName(s).Ok?
  {
    if ValidateVendorName(s).Ok? {
      var d := DropFinalNewline(s);
      if EndsWithNewline(s) {
        assert s == d + "\n";
        assert forall i :: 0 <= i < |s| ==> IsTextChar(s[i]) by {
          forall i | 0 <= i < |s| ensures IsTextChar(s[i]) {
            if i < |d| { assert s[i] == d[i]; }
          }
        }
      }
    }
  }

  /** Commas are what separates the author name from the display name. */
  lemma TextFieldExamples()
    ensures ValidateDisplayName("Acme, Inc.").Err?
    ensures ValidateAuthorName("Acme, Inc.") == Ok("Acme, Inc.")
    ensures ValidateDescription("") == Ok("")
    ensures ValidateDisplayName("").Err?
    ensures ValidateVendorName("Acme Inc").Err?
  {
    assert !IsTextChar("Acme, Inc."[4]);
    assert !IsWordChar("Acme Inc"[4]);
    assert DropFinalNewline("Acme Inc") == "Acme Inc";
  }

  /** `validateAuthorEmail`; `isEmail` stands for `filter_var(…, FILTER_VALIDATE_EMAIL)`. */
  function ValidateAuthorEmail(email: string, isEmail: string -> bool): (r: Result<string>)
    ensures r.Ok? <==> isEmail(email)
    ensures r.Ok? ==> r.value == email
    ensures r.Err? ==> r.error == InvalidEmail
  {
    if !isEmail(email) then Err(InvalidEmail) else Ok(email)
  }

  /** `validatePackageWebsiteUrl`; `isUrl` stands for `filter_var(…, FILTER_VALIDATE_URL)`. */
  function ValidatePackageWebsiteUrl(url: string, isUrl: string -> bool): (r: Result<string>)
    ensures r.Ok? <==> isUrl(url)
    ensures r.Ok? ==> r.value == url
    ensures r.Err? ==> r.error == InvalidUrl
  {
    if !isUrl(url) then Err(InvalidUrl) else Ok(url)
  }

  // ---------------------------------------------------------------------------
  // Yes/no and true/false answers
  // ---------------------------------------------------------------------------

  /** `validateOperationOwnsLocation`: exactly `true` or `false`, case-sensitively. */
  function ValidateOperationOwnsLocation(value: string): (r: Result<string>)
    ensures r.Ok? <==> value == "true" || value == "false"
    ensures r.Ok? ==> r.value == value
    ensures r.Err? ==> r.error == NotTrueOrFalse
  {
    if value !in ["true", "false"] then Err(NotTrueOrFalse) else Ok(value)
  }

  /** `validateEqualsOperation`: the same rule as `validateOperationOwnsLocation`. */
  function ValidateEqualsOperation(value: string): (r: Result<string>)
    ensures r.Ok? <==> value == "true" || value == "false"
    ensures r.Ok? ==> r.value == value
    ensures r.Err? ==> r.error == NotTrueOrFalse
  {
    if value !in ["true", "false"] then Err(NotTrueOrFalse) else Ok(value)
  }

  /** `validateBooleanAnswer`: lowercases, then only `yes` and `no` pass. */
  function ValidateBooleanAnswer(answer: string): (r: Result<string>)
    ensures r.Ok? <==> Lower(answer) == "yes" || Lower(answer) == "no"
    ensures r.Ok? ==> r.value == Lower(answer) && (r.value == "yes" || r.value == "no")
    ensures r.Err? ==> r.error == UnsupportedAnswer(Lower(answer)) && r.error.IsRuntimeException()
  {
    var a := Lower(answer);
    if a !in ["yes", "no"] then Err(UnsupportedAnswer(a)) else Ok(a)
  }

  /**
   * The two kinds of yes/no question never accept the same answer, the
   * true/false rule is case-sensitive, and the yes/no rule is idempotent.
   */
  lemma YesNoAndTrueFalse(s: string)
    ensures ValidateBooleanAnswer(s).Ok? ==> ValidateOperationOwnsLocation(s).Err?
    ensures ValidateBooleanAnswer(s).Ok? ==>
              ValidateBooleanAnswer(ValidateBooleanAnswer(s).value) == ValidateBooleanAnswer(s)
    ensures ValidateBooleanAnswer("YES") == Ok("yes")
    ensures ValidateBooleanAnswer("y").Err? && ValidateBooleanAnswer("true").Err?
    ensures ValidateOperationOwnsLocation("True").Err?
  {
    LowerIdempotent(s);
    assert Lower("true") == "true";
    assert Lower("false") == "false";
    assert Lower("YES") == "yes";
    assert Lower("y") == "y";
  }

  // ---------------------------------------------------------------------------
  // Comma-separated lists
  // ---------------------------------------------------------------------------

  /** `foreach (explode(',', $value) as $c)` with `ok` deciding each entry. */
  predicate EveryEntry(value: string, ok: string -> bool) {
    var parts := Split(value, ',');
    forall i :: 0 <= i < |parts| ==> ok(parts[i])
  }

  /** The comma list `a,b` passes exactly when `a` and `b` both pass. */
  lemma EveryEntryConcat(a: string, b: string, ok: string -> bool)
    ensures EveryEntry(a + "," + b, ok) <==> EveryEntry(a, ok) && EveryEntry(b, ok)
  {
    SplitConcat(a, b, ',');
    var pa := Split(a, ',');
    var pb := Split(b, ',');
    var all := pa + pb;
    assert forall i :: 0 <= i < |pa| ==> all[i] == pa[i];
    assert forall i :: 0 <= i < |pb| ==> all[|pa| + i] == pb[i];
  }

  /** A channel, location or operation entry as its pattern sees it: `/` turned into `\`, then trimmed. */
  function NormalisedEntry(c: string): string {
    Trim(ReplaceChar(c, '/', '\\'))
  }

  predicate ChannelEntryOk(c: string) { Anchored(NormalisedEntry(c), ChannelShape) }

  predicate HookEntryOk(c: string) { Anchored(Trim(c), HookRun) }

  predicate MetricEntryOk(c: string) { Anchored(Trim(c), WordRun) }

  predicate LocationShape(s: string) { ParameterShape(s, LocationPrefix) }

  predicate OperationShape(s: string) { ParameterShape(s, OperationPrefix) }

  predicate LocationEntryOk(c: string) { Anchored(NormalisedEntry(c), LocationShape) }

  predicate OperationEntryOk(c: string) { Anchored(NormalisedEntry(c), OperationShape) }

  /** `validateChannelsForActivity`: every entry has the channel package shape. */
  function ValidateChannelsForActivity(value: string): (r: Result<string>)
    ensures r.Ok? <==> forall e :: e in Split(value, ',') ==> ChannelShape(NormalisedEntry(e))
    ensures r.Ok? ==> r.value == value
    ensures r.Err? ==> r.error == InvalidChannelPackages
  {
    if !EveryEntry(value, ChannelEntryOk) then Err(InvalidChannelPackages) else Ok(value)
  }

  /** `validateHooksForActivity`: every trimmed entry is a run of `[a-z0-9_-]`, possibly empty. */
  function ValidateHooksForActivity(value: string): (r: Result<string>)
    ensures r.Ok? <==> forall e :: e in Split(value, ',') ==> AllChars(Trim(e), IsHookChar)
    ensures r.Ok? ==> r.value == value
    ensures r.Err? ==> r.error == InvalidHookNames
  {
    if !EveryEntry(value, HookEntryOk) then Err(InvalidHookNames) else Ok(value)
  }

  /** `validateLocationParameterName`: every entry has the location parameter shape. */
  function ValidateLocationParameterName(value: string): (r: Result<string>)
    ensures r.Ok? <==> forall e :: e in Split(value, ',') ==> ParameterShape(NormalisedEntry(e), LocationPrefix)
    ensures r.Ok? ==> r.value == value
    ensures r.Err? ==> r.error == InvalidLocationParameter
  {
    if !EveryEntry(value, LocationEntryOk) then Err(InvalidLocationParameter) else Ok(value)
  }

  /** `validateOperationParameterNames`: every entry has the operation parameter shape. */
  function ValidateOperationParameterNames(value: string): (r: Result<string>)
    ensures r.Ok? <==> forall e :: e in Split(value, ',') ==> ParameterShape(NormalisedEntry(e), OperationPrefix)
    ensures r.Ok? ==> r.value == value
    ensures r.Err? ==> r.error == InvalidOperationParameters
  {
    if !EveryEntry(value, OperationEntryOk) then Err(InvalidOperationParameters) else Ok(value)
  }

  /** `validateMetricsForOperation`: every trimmed entry is a run of `[a-zA-Z0-9_]`, possibly empty. */
  function ValidateMetricsForOperation(value: string): (r: Result<string>)
    ensures r.Ok? <==> forall e :: e in Split(value, ',') ==> AllChars(Trim(e), IsWordChar)
    ensures r.Ok? ==> r.value == value
    ensures r.Err? ==> r.error == InvalidMetricNames
  {
    if !EveryEntry(value, MetricEntryOk) then Err(InvalidMetricNames) else Ok(value)
  }

  /** Every list validator judges `a,b` as the conjunction of its verdicts on `a` and `b`. */
  lemma ListValidatorsConcat(a: string, b: string)
    ensures ValidateChannelsForActivity(a + "," + b).Ok?
            <==> ValidateChannelsForActivity(a).Ok? && ValidateChannelsForActivity(b).Ok?
    ensures ValidateHooksForActivity(a + "," + b).Ok?
            <==> ValidateHooksForActivity(a).Ok? && ValidateHooksForActivity(b).Ok?
    ensures ValidateLocationParameterName(a + "," + b).Ok?
            <==> ValidateLocationParameterName(a).Ok? && ValidateLocationParameterName(b).Ok?
    ensures ValidateOperationParameterNames(a + "," + b).Ok?
            <==> ValidateOperationParameterNames(a).Ok? && ValidateOperationParameterNames(b).Ok?
    ensures ValidateMetricsForOperation(a + "," + b).Ok?
            <==> ValidateMetricsForOperation(a).Ok? && ValidateMetricsForOperation(b).Ok?
  {
    var ab := a + "," + b;
    assert ValidateChannelsForActivity(ab).Ok?
           <==> ValidateChannelsForActivity(a).Ok? && ValidateChannelsForActivity(b).Ok? by {
      EveryEntryConcat(a, b, ChannelEntryOk);
    }
    assert ValidateHooksForActivity(ab).Ok?
           <==> ValidateHooksForActivity(a).Ok? && ValidateHooksForActivity(b).Ok? by {
      EveryEntryConcat(a, b, HookEntryOk);
    }
    assert ValidateLocationParameterName(ab).Ok?
           <==> ValidateLocationParameterName(a).Ok? && ValidateLocationParameterName(b).Ok? by {
      EveryEntryConcat(a, b, LocationEntryOk);
    }
    assert ValidateOperationParameterNames(ab).Ok?
           <==> ValidateOperationParameterNames(a).Ok? && ValidateOperationParameterNames(b).Ok? by {
      EveryEntryConcat(a, b, OperationEntryOk);
    }
    assert ValidateMetricsForOperation(ab).Ok?
           <==> ValidateMetricsForOperation(a).Ok? && ValidateMetricsForOperation(b).Ok? by {
      EveryEntryConcat(a, b, MetricEntryOk);
    }
  }

  /**
   * What an accepted channel list guarantees of each entry: it starts with a
   * letter, contains `channel-` and ends in a word byte.
   */
  lemma ChannelListConsequences(value: string)
    requires ValidateChannelsForActivity(value).Ok?
    ensures forall e :: e in Split(value, ',') ==>
              var c := NormalisedEntry(e);
              |c| > 0 && IsLetter(c[0]) && IsWordChar(c[|c| - 1]) && exists i :: OccursAt(c, "channel-", i)
  {
    forall e | e in Split(value, ',')
      ensures var c := NormalisedEntry(e);
              |c| > 0 && IsLetter(c[0]) && IsWordChar(c[|c| - 1]) && exists i :: OccursAt(c, "channel-", i)
    {
      ChannelShapeConsequences(NormalisedEntry(e));
    }
  }

  /**
   * What an accepted location-parameter list guarantees of each entry: the
   * prefix with its dots as wildcards, a letter after it, at least five more
   * bytes and a final word byte.
   */
  lemma LocationListConsequences(value: string)
    requires ValidateLocationParameterName(value).Ok?
    ensures forall e :: e in Split(value, ',') ==>
              var c := NormalisedEntry(e);
              && |c| >= |LocationPrefix| + 5
              && DotPattern(c[..|LocationPrefix|], LocationPrefix)
              && IsLetter(c[|LocationPrefix|])
              && IsWordChar(c[|c| - 1])
  {
    forall e | e in Split(value, ',')
      ensures var c := NormalisedEntry(e);
              && |c| >= |LocationPrefix| + 5
              && DotPattern(c[..|LocationPrefix|], LocationPrefix)
              && IsLetter(c[|LocationPrefix|])
              && IsWordChar(c[|c| - 1])
    {
      ParameterEntryConsequences(e, LocationPrefix);
    }
  }

  /** The facts of `ParameterShapeConsequences` for one trimmed list entry. */
  lemma ParameterEntryConsequences(e: string, prefix: string)
    requires ParameterShape(NormalisedEntry(e), prefix)
    ensures var c := NormalisedEntry(e);
            && |c| >= |prefix| + 5
            && DotPattern(c[..|prefix|], prefix)
            && IsLetter(c[|prefix|])
            && IsWordChar(c[|c| - 1])
  {
    ParameterShapeConsequences(NormalisedEntry(e), prefix);
  }

  /** The operation-parameter counterpart of `LocationListConsequences`. */
  lemma OperationListConsequences(value: string)
    requires ValidateOperationParameterNames(value).Ok?
    ensures forall e :: e in Split(value, ',') ==>
              var c := NormalisedEntry(e);
              && |c| >= |OperationPrefix| + 5
              && DotPattern(c[..|OperationPrefix|], OperationPrefix)
              && IsLetter(c[|OperationPrefix|])
              && IsWordChar(c[|c| - 1])
  {
    forall e | e in Split(value, ',')
      ensures var c := NormalisedEntry(e);
              && |c| >= |OperationPrefix| + 5
              && DotPattern(c[..|OperationPrefix|], OperationPrefix)
              && IsLetter(c[|OperationPrefix|])
              && IsWordChar(c[|c| - 1])
    {
      ParameterEntryConsequences(e, OperationPrefix);
    }
  }
}
