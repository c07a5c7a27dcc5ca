# CampaignChain module generator: validators and generation plan

This project models in Dafny the two pieces of pure logic in CampaignChain's
module generator and proves properties of them.

- **The input validators** (`Command/Validators.php`). These are the static
  checks the `generate:module` command applies to every answer: module type,
  module name and suffix, package name, free-text fields, true/false and
  yes/no answers, and the comma-separated lists of channels, hooks, location
  and operation parameter names, and metrics. Each becomes a function
  returning `Result<string>`: `Ok(value)` for the value the validator
  returns, and `Err(error)` with one `Error` constructor per exception
  message. Every regular expression is read as a predicate over the string
  (module `Patterns`). The reading includes PCRE's rule that `$` also
  matches just before one final line feed (`Patterns.Anchored`).
- **The generation plan** (`ModuleGenerator::generateConf`). This is a pure
  function `ModuleGenerator.GenerateConf` from the request to a `Plan`. A
  plan holds the parameter array handed to the templates and the ordered
  list of file actions:
  - `Render(template, target, parameters)`;
  - `Copy(source, target)`;
  - `Remove(target)`.

The proofs show the following about the plan:
- which actions each module type produces, with the exact target paths;
- that each per-bundle file is touched by exactly the actions the source
  writes for it;
- that the parameter array carries the request faithfully.

Module `Php` holds the PHP built-ins the two files rely on:
- `strtolower` (ASCII only);
- `strtr` and `str_replace` with a one-byte needle;
- `explode` and `implode`;
- `trim`;
- array look-up, `isset` and `empty`;
- string conversion;
- the loose `==` between strings, as PHP 8 defines it for integer numeric strings.

Where the code and its documentation disagree, the model follows the code:
- `validateModuleType` accepts nine types (channel, location, activity,
  operation, campaign, milestone, report, security, distribution), and `hook`
  is not among them;
- `validateOperationOwnsLocation` and `validateEqualsOperation` are
  case-sensitive, so `True` is refused;
- the namespace and bundle-name validators belong to the parent Sensio class,
  which is not part of this model.

## Model

| member | source | states |
|---|---|---|
| `Validators.ValidateModuleType` | Command/Validators.php:18-27 | accepted iff the lowercased answer is one of the nine types; the result is exactly the lowercased answer; otherwise a runtime exception naming the lowercased answer |
| `Validators.ModuleTypeIdempotent` | Command/Validators.php:18-27 | validating an accepted type again gives the same result |
| `Validators.ModuleTypeExamples` | Command/Validators.php:20-23 | `Operation` is accepted as `operation`; `hook` is refused |
| `Validators.ValidateModuleName` | Command/Validators.php:40-47 | accepted iff every byte (before one optional final line feed) is in `[a-zA-Z0-9_-]`, the empty name included; the name is returned unchanged |
| `Validators.ModuleNameExamples` | Command/Validators.php:43-45 | the empty name, `mail-chimp` and `twitter` plus a line feed pass; `mail chimp` fails |
| `Validators.ValidateModuleCount` | Command/Validators.php:49-55 | fails iff the module list is empty; otherwise returns true |
| `Validators.ValidateModuleNameSuffix` | Command/Validators.php:58-77 | with `required`: accepted iff non-empty name bytes and no existing suffix is loosely equal; a success differs from every existing suffix; "in use" is reported iff the bytes pass but the suffix is taken; without `required`: the module-name byte rule only; every other refusal is the invalid-characters error |
| `Validators.NameRules` | Command/Validators.php:43 | the anchored patterns `^(?:[a-zA-Z0-9_-]*-?)+$` and `^[a-zA-Z0-9_-]+$` hold exactly when all bytes (and, for the second, at least one) are name bytes |
| `Validators.OptionalSuffixIsModuleName` | Command/Validators.php:71-75 | without `required` the suffix rule is exactly the module-name rule |
| `Validators.BatchSuffixesDistinct` | Command/Validators.php:65-70 | in a batch whose suffixes were each accepted against the earlier modules, no two modules share a suffix |
| `Validators.SuffixClash` | Command/Validators.php:62-69 | a well-formed suffix loosely equal to an existing one is refused as in use |
| `Validators.SuffixFree` | Command/Validators.php:62-69 | a well-formed suffix loosely equal to no existing one is accepted unchanged |
| `Validators.SuffixClashExamples` | Command/Validators.php:62-69 | `01`, and `1` followed by a line feed, both clash with an existing `1` under loose `==` |
| `Validators.EmptySuffixExamples` | Command/Validators.php:60-75 | the empty suffix fails when required and passes otherwise |
| `Validators.FirstReservedIndex` | Command/Validators.php:90-94 | the index of the first segment whose lowercase form is reserved; no earlier segment is reserved |
| `Validators.ValidatePackageName` | Command/Validators.php:79-111 | success implies a vendor separator, no reserved segment, the result is the input with every `\` turned into `/`, and the type token followed by `-` and an identifier start; a reserved-word error names the first segment, in order, whose lowercase form is reserved; a missing-vendor error means there is no separator |
| `Validators.PackageNameAcceptance` | Command/Validators.php:81-108 | accepted iff all four stages pass: characters, reserved words, separator and pattern 103 |
| `Validators.PackageNameRefusals` | Command/Validators.php:84-108 | each of the four refusals (bad characters, reserved word, missing vendor, missing type) is given exactly when the earlier stages pass and its own stage fails |
| `Validators.PackageTokenAsTyped` | Command/Validators.php:103-108 | when the type has no backslash, the accepted answer contains the type followed by `-` as typed |
| `Validators.VendorTypeNameAccepted` | Command/Validators.php:79-111 | `vendor/type-name` with identifier-shaped, non-reserved parts is accepted and returned unchanged |
| `Validators.NoSeparatorRefused` | Command/Validators.php:96-101 | an identifier without separator is refused for the missing vendor |
| `Validators.ReservedVendorRefused` | Command/Validators.php:88-94 | a reserved vendor is refused, and the error names it |
| `Validators.NoHyphenNeverAccepted` | Command/Validators.php:103-108 | a name without `-` is never accepted |
| `Validators.TwoSegments` | Command/Validators.php:81-90 | the segments of `vendor/name` are `[vendor, name]` |
| `Validators.ValidateDisplayName` | Command/Validators.php:113-119 | accepted iff non-empty over letters, digits, `.`, `-`, `_` and white space; returned unchanged |
| `Validators.ValidateDescription` | Command/Validators.php:121-127 | accepted iff over the author-name bytes, the empty description included; returned unchanged |
| `Validators.ValidateAuthorName` | Command/Validators.php:129-135 | accepted iff non-empty over the display-name bytes and `,`; returned unchanged |
| `Validators.ValidateVendorName` | Command/Validators.php:137-143 | accepted iff non-empty over `[a-zA-Z0-9_]` (before one optional final line feed); returned unchanged |
| `Validators.ValidatePackageLicense` | Command/Validators.php:161-167 | the display-name rule; returned unchanged |
| `Validators.TextFieldsNest` | Command/Validators.php:113-143 | vendor names are display names, display names are author names, author names are the non-empty descriptions, and licenses follow the display-name rule |
| `Validators.TextFieldExamples` | Command/Validators.php:113-143 | `Acme, Inc.` is an author name but not a display name; the empty description passes |
| `Validators.ValidateAuthorEmail` | Command/Validators.php:145-151 | accepted iff the e-mail predicate holds; returned unchanged |
| `Validators.ValidatePackageWebsiteUrl` | Command/Validators.php:153-159 | accepted iff the URL predicate holds; returned unchanged |
| `Validators.ValidateOperationOwnsLocation` | Command/Validators.php:169-175 | accepted iff exactly `true` or `false`; returned unchanged |
| `Validators.ValidateEqualsOperation` | Command/Validators.php:219-225 | accepted iff exactly `true` or `false`; returned unchanged |
| `Validators.ValidateBooleanAnswer` | Command/Validators.php:252-261 | accepted iff the lowercased answer is `yes` or `no`; returns it lowercased; otherwise a runtime exception naming it |
| `Validators.YesNoAndTrueFalse` | Command/Validators.php:169-175 | no answer passes both the yes/no and the true/false rule; yes/no is idempotent; `YES` passes, `True` does not |
| `Validators.EveryEntryConcat` | Command/Validators.php:183 | a list `a,b` passes iff `a` and `b` both pass |
| `Validators.ValidateChannelsForActivity` | Command/Validators.php:177-190 | accepted iff every comma entry, with `/` turned into `\` and trimmed, has the channel-package shape; the value is returned untrimmed |
| `Validators.ValidateHooksForActivity` | Command/Validators.php:192-203 | accepted iff every trimmed entry is over `[a-z0-9_-]`, empty entries included; the value is returned untrimmed |
| `Validators.ValidateLocationParameterName` | Command/Validators.php:205-217 | accepted iff every normalised entry has the location parameter shape; the value is returned untrimmed |
| `Validators.ValidateOperationParameterNames` | Command/Validators.php:227-239 | accepted iff every normalised entry has the operation parameter shape; the value is returned untrimmed |
| `Validators.ValidateMetricsForOperation` | Command/Validators.php:241-250 | accepted iff every trimmed entry is over `[a-zA-Z0-9_]`, empty entries included; the value is returned untrimmed |
| `Validators.ListValidatorsConcat` | Command/Validators.php:177-250 | each of the five list validators accepts `a,b` iff it accepts `a` and `b` |
| `Validators.ChannelListConsequences` | Command/Validators.php:183-187 | every accepted channel entry starts with a letter, contains `channel-` and ends in a word byte |
| `Validators.LocationListConsequences` | Command/Validators.php:210-214 | every accepted location entry starts with the prefix (dots as wildcards), then a letter, is at least five bytes longer than the prefix and ends in a word byte |
| `Validators.OperationListConsequences` | Command/Validators.php:232-236 | the same for operation parameter names |
| `Patterns.AnchoredAllChars` | Command/Validators.php:43 | under PCRE's `$`, a class-star pattern accepts exactly the strings whose bytes, before one optional final line feed, are in the class |
| `Patterns.AnchoredSomeCharsWithNewline` | Command/Validators.php:115 | for a class-plus pattern whose class holds the line feed, the `$` quirk changes nothing |
| `Patterns.PackageShapeConsequences` | Command/Validators.php:103 | a string of the package shape contains the type token followed by `-` and an identifier start, starts with an identifier start and ends in an identifier byte |
| `Patterns.ChannelShapeConsequences` | Command/Validators.php:185 | a string of the channel shape starts with a letter, contains `channel-` and ends in a word byte |
| `Patterns.ParameterShapeConsequences` | Command/Validators.php:212 | a parameter-name shape starts with the prefix (dots as wildcards) and a letter, is at least five bytes longer than the prefix and ends in a word byte |
| `Patterns.DotUnitsConsequences` | Command/Validators.php:234 | one or more `.word` groups are at least two bytes and end in a word byte |
| `Php.Lower` | Command/Validators.php:20 | `strtolower` keeps the length and lowercases byte by byte |
| `Php.LowerIdempotent` | Command/Validators.php:254 | lowercasing twice is lowercasing once |
| `Php.SplitJoin` | Command/Validators.php:90 | exploding the implode of delimiter-free pieces gives the pieces back |
| `Php.JoinSplit` | Command/Validators.php:183 | imploding the pieces of `explode` gives back the original string |
| `Php.SplitCount` | Command/Validators.php:210 | `explode` gives one piece more than there are delimiters |
| `Php.SplitConcat` | Command/Validators.php:232 | exploding `a,b` is exploding `a` then `b` |
| `Php.Trim` | Command/Validators.php:184 | `trim` gives a substring with no strippable byte at either end |
| `Php.TrimIdempotent` | Command/Validators.php:197 | trimming twice is trimming once |
| `Php.ReplaceThereAndBack` | Command/Validators.php:109 | swapping `/` to `\` and back leaves only the original `\` turned into `/` |
| `Php.ReplaceChar` | Command/Validators.php:81 | `strtr` with one byte keeps the length and replaces exactly the bytes equal to the needle |
| `Php.Split` | Command/Validators.php:90 | `explode` always gives at least one piece, and no piece holds the delimiter |
| `Php.Join` | Command/Validators.php:100 | `implode` of no pieces is empty, and the first piece begins the result |
| `Php.Get` | Generator/ModuleGenerator.php:73 | reading a present key gives its entry; a missing key reads as null |
| `Php.Empty` | Generator/ModuleGenerator.php:73 | `empty` holds for null, `""`, `"0"` and the empty array, and for no other value |
| `Php.IsSet` | Generator/ModuleGenerator.php:87-90 | `isset` holds iff the key is present and not null; every non-empty entry is set, so the `isset` at line 87 adds nothing to the `!empty` at line 88 |
| `Php.ToStr` | Generator/ModuleGenerator.php:90 | string conversion: a string is itself, null is empty and an array is `Array` |
| `Php.LooseEquals` | Command/Validators.php:66 | two strings are `==` iff they are byte-equal, or both are integer numeric strings within the 64-bit range with the same value |
| `Php.LooseEqualsEquivalence` | Command/Validators.php:66 | loose `==` between strings is reflexive, symmetric and transitive |
| `Php.LooseEqualsExamples` | Command/Validators.php:66 | `01 == 1` and `1\n == 1` |
| `Php.LetterFirstNotNumeric` | Command/Validators.php:66 | a string starting with a letter is not numeric and equals only itself |
| `Php.OverflowComparesBytes` | Command/Validators.php:66 | an integer string beyond the 64-bit range is `==` to another integer string only when byte-equal |
| `Php.TrailingSpaceIgnored` | Command/Validators.php:66 | appending numeric white space to an integer string keeps it numeric with the same value |
| `Php.LeadingZero` | Command/Validators.php:66 | a leading zero keeps a run of digits numeric with the same value |
| `Php.LooseEqualsValue` | Command/Validators.php:66 | an array entry holding the string itself always matches; null matches only the empty string; an array never matches; a string entry matches by loose string `==` |
| `Patterns.Anchored` | Command/Validators.php:43 | under PCRE's `$`, a string matching the pattern body matches; any other match must end in a line feed and match the body without it |
| `Patterns.PackageShape` | Command/Validators.php:103 | a string of the package shape starts with an identifier start and is at least three bytes longer than the module type |
| `Patterns.PackageMatch` | Command/Validators.php:103 | every string of the package shape matches the anchored pattern, and each match starts with an identifier start and is at least three bytes longer than the type |
| `Patterns.ChannelShape` | Command/Validators.php:185 | a string of the channel shape starts with a letter and is at least eight bytes long |
| `Patterns.ParameterShape` | Command/Validators.php:212 | a parameter-name shape is longer than its prefix, and the byte after the prefix is a letter |
| `ModuleGenerator.EscapeBackslashes` | Generator/ModuleGenerator.php:44 | every backslash doubled: the length grows by the number of backslashes |
| `ModuleGenerator.CollapseEscape` | Generator/ModuleGenerator.php:44 | the escaped namespace reads back as the namespace |
| `ModuleGenerator.OutputRoot` | Generator/ModuleGenerator.php:43 | the output directory is `dir/` followed by the namespace byte for byte, each `\` turned into `/` |
| `ModuleGenerator.OutputRootRecoversNamespace` | Generator/ModuleGenerator.php:43 | a namespace without `/` can be read back from the output directory |
| `ModuleGenerator.RoutePrefix` | Generator/ModuleGenerator.php:62 | same length as the package name, no `/` or `-`, every other byte kept |
| `ModuleGenerator.RoutePrefixUnderscores` | Generator/ModuleGenerator.php:62 | a position holds `_` iff the package held `/`, `-` or `_` there |
| `ModuleGenerator.SuffixPart` | Generator/ModuleGenerator.php:73-74 | empty iff the suffix is PHP-empty; otherwise exactly `_` followed by the suffix with `-` turned into `_` and lowercased, so one byte longer than the suffix and free of `-` |
| `ModuleGenerator.ZeroSuffixIsNoSuffix` | Generator/ModuleGenerator.php:73-74 | the suffix `0` gives the same file names as no suffix |
| `ModuleGenerator.IconFileName` | Generator/ModuleGenerator.php:85-91 | the hyphenated module name, longer iff the suffix is set and non-empty, and then followed by `-` and the hyphenated suffix |
| `ModuleGenerator.TypeOf` | Generator/ModuleGenerator.php:68-98 | which of the case-insensitive type tests holds |
| `ModuleGenerator.PerModuleCount` | Generator/ModuleGenerator.php:66-101 | a module gets actions iff its type is operation, activity, campaign, channel or report |
| `ModuleGenerator.ModuleActions` | Generator/ModuleGenerator.php:66-101 | one module's actions: as many as its type prescribes, all inside the bundle but never on a per-bundle file, and all rendered with the merged parameters |
| `ModuleGenerator.ModulesActions` | Generator/ModuleGenerator.php:66-101 | the loop gives one block per module, all inside the bundle and off the per-bundle files |
| `ModuleGenerator.ModulesActionsBlocks` | Generator/ModuleGenerator.php:66-101 | block `k` of the loop's actions is exactly module `k`'s actions |
| `ModuleGenerator.OperationClassFiles` | Generator/ModuleGenerator.php:69-72 | the job, report, form type and entity renders, with their targets built from `class_name` |
| `ModuleGenerator.OperationViewFiles` | Generator/ModuleGenerator.php:73-74 | the read view and stylesheet renders, named with the suffix part |
| `ModuleGenerator.OperationModuleFiles` | Generator/ModuleGenerator.php:68-75 | an operation module gets exactly these six renders, in order |
| `ModuleGenerator.ActivityModuleFiles` | Generator/ModuleGenerator.php:76-78 | an activity module gets only `Controller/<class>Handler.php` |
| `ModuleGenerator.CampaignModuleFiles` | Generator/ModuleGenerator.php:79-81 | a campaign module gets only `Service/Job.php` |
| `ModuleGenerator.ChannelModuleFiles` | Generator/ModuleGenerator.php:82-97 | a channel module gets its controller, then the three icon copies under its icon name |
| `ModuleGenerator.ReportModuleFiles` | Generator/ModuleGenerator.php:98-100 | a report module gets only `Controller/<class>Controller.php` |
| `ModuleGenerator.OtherModuleFiles` | Generator/ModuleGenerator.php:66-101 | location modules and unrecognised types get no per-module action |
| `ModuleGenerator.ChannelIconFiles` | Generator/ModuleGenerator.php:94-96 | the 16x16, 24x24 and 32x32 skeleton icons are copied under the same icon name |
| `ModuleGenerator.ModuleRendersMerge` | Generator/ModuleGenerator.php:69-99 | per-module renders see the union of both key sets; module entries win and bundle parameters fill in the rest |
| `ModuleGenerator.OperationViewTargets` | Generator/ModuleGenerator.php:73-74 | where an operation module's read view and stylesheet go |
| `ModuleGenerator.ZeroSuffixSharesViews` | Generator/ModuleGenerator.php:73-74 | a module with suffix `0` writes the same read view and stylesheet as the same module without a suffix |
| `ModuleGenerator.TypeOfIgnoresCase` | Generator/ModuleGenerator.php:68 | lowercasing the type first changes no test |
| `ModuleGenerator.ActionsIgnoreCase` | Generator/ModuleGenerator.php:66-120 | the per-module and per-bundle actions do not depend on the case of the type |
| `ModuleGenerator.BundleCount` | Generator/ModuleGenerator.php:103-131 | four to six per-bundle actions; four iff the type has no services file |
| `ModuleGenerator.ServiceActions` | Generator/ModuleGenerator.php:104-120 | one services render for activity, location, operation and campaign, one more for operation, all per-bundle files |
| `ModuleGenerator.ServiceActionsTargeting` | Generator/ModuleGenerator.php:104-120 | for each per-bundle file, which services actions aim at it |
| `ModuleGenerator.SingleServiceFile` | Generator/ModuleGenerator.php:104-111 | activity, location and campaign get just their own services template |
| `ModuleGenerator.CommonActions` | Generator/ModuleGenerator.php:122-124 | the three common renders with the bundle parameters |
| `ModuleGenerator.CommonActionsTargeting` | Generator/ModuleGenerator.php:122-124 | each common file gets its own template, and no other file is touched |
| `ModuleGenerator.RoutingAction` | Generator/ModuleGenerator.php:125-131 | the routing file is rendered iff the answer is `yes`, and removed otherwise |
| `ModuleGenerator.BundleActions` | Generator/ModuleGenerator.php:103-131 | as many per-bundle actions as `BundleCount`, all on per-bundle files and rendered with the bundle parameters |
| `ModuleGenerator.BaseParameters` | Generator/ModuleGenerator.php:46-59 | the parameter array has exactly the twelve listed keys |
| `ModuleGenerator.BundleParameters` | Generator/ModuleGenerator.php:46-63 | `route_prefix` is present iff routing is `yes` |
| `ModuleGenerator.BundleKeepsBase` | Generator/ModuleGenerator.php:61-63 | adding `route_prefix` changes none of the twelve base entries |
| `ModuleGenerator.NamespaceParameter` | Generator/ModuleGenerator.php:44-47 | the `namespace` parameter reads back as the namespace |
| `ModuleGenerator.BundleAnswerParameters` | Generator/ModuleGenerator.php:48-57 | bundle name, type, license, website and description are passed as typed |
| `ModuleGenerator.AuthorAnswerParameters` | Generator/ModuleGenerator.php:53-58 | vendor, author, e-mail, package name and routing answer are passed as typed |
| `ModuleGenerator.ModulesParameter` | Generator/ModuleGenerator.php:50 | `modules` lists the module records in order |
| `ModuleGenerator.RoutePrefixParameter` | Generator/ModuleGenerator.php:61-63 | with routing, `route_prefix` is the package name with `/` and `-` replaced by `_` position by position |
| `ModuleGenerator.GenerateConf` | Generator/ModuleGenerator.php:40-132 | the action count is the modules times the per-module count plus the bundle count; the keys are as above; every target starts with the output directory followed by `/`; the parameters are the bundle parameters and the actions are the module loop's followed by the per-bundle ones |
| `ModuleGenerator.PlanTargetingBundleFile` | Generator/ModuleGenerator.php:103-131 | what the plan does to a per-bundle file is decided by the per-bundle actions alone |
| `ModuleGenerator.RoutingHandledOnce` | Generator/ModuleGenerator.php:125-131 | exactly one action concerns the routing file: a render if routing is `yes`, a removal otherwise |
| `ModuleGenerator.ServicesFileRendered` | Generator/ModuleGenerator.php:104-120 | `services.yml` is rendered once, from the type's template, iff the type has one |
| `ModuleGenerator.FieldsOnlyForOperations` | Generator/ModuleGenerator.php:112-116 | the form theme is rendered once for operations and never otherwise |
| `ModuleGenerator.CommonFileRendered` | Generator/ModuleGenerator.php:122-124 | only the common actions aim at a common file |
| `ModuleGenerator.CommonFilesRendered` | Generator/ModuleGenerator.php:122-124 | `campaignchain.yml`, `composer.json` and `config.yml` are rendered exactly once for every type, with the bundle parameters |

## Left out

- Validators.ValidateModuleNameSuffix: PHP 8's loose `==` is modelled for integer numeric strings: white space around them is allowed, and beyond the 64-bit range they compare byte for byte. Fractions and exponents are compared as plain strings, so `1.0 == 1` does not hold in the model. Comparisons as PHP 7 defines them are not modelled.
- Validators.ValidatePackageName: the module type is spliced raw into the pattern at Command/Validators.php:103. The model matches it literally. This is exact for the nine module types, but not for a type holding regex metacharacters.
- PCRE backtracking and resource limits are not modelled. Every pattern is read as the set of strings it denotes.
- `getReservedWords()` is inherited from the Sensio validator class, which is not part of this model. The reserved words are a parameter of `Validators.ValidatePackageName`. The model tests membership exactly, while `in_array` at Command/Validators.php:91 compares loosely; the two agree as long as no reserved word is a numeric string.
- Php.LooseEquals: numeric strings with a fraction or an exponent are compared byte for byte, so `"1e3" == "1000"` and `"1.0" == "1"` hold in PHP 8 but not in the model; floating-point comparison is not modelled.
- ModuleGenerator.SuffixPart: an array-valued `module_name_suffix` is converted to `Array` and gives `_array`. PHP 8 instead throws a `TypeError` from `strtolower` at Generator/ModuleGenerator.php:73-74, so `generateConf` would abort; the plan does not model that failure.
- `filter_var` with `FILTER_VALIDATE_EMAIL` and `FILTER_VALIDATE_URL` is a function-valued parameter of `Validators.ValidateAuthorEmail` and `Validators.ValidatePackageWebsiteUrl`.
- The exception messages are `Error` constructors. Their `sprintf` text is not built. The message at Command/Validators.php:106 reads `$data[1]`, which is only evaluated for the text.
- The namespace and bundle-name validators of the parent Sensio class are not part of this model.
- Twig rendering is not modelled: an action records the template, the target and the parameters only.
- `setSkeletonDirs`, the `__DIR__`-relative skeleton paths and `Filesystem::copy`/`remove` are not modelled either. Skeleton files are named relative to the skeleton directory.
- `ModuleGenerator::__construct` and `generate` are not modelled. They only delegate to the Sensio `BundleGenerator`, which is not part of this model.
- `Command/GenerateModuleCommand.php` is not modelled. Its methods are empty apart from building a `BundleGenerator`.
- The order of keys in PHP arrays is not modelled: parameters are maps.
- `array_merge` is modelled as a map union in which the module's entries win. This is exact for string keys, which are the only keys module records have.
- `$routing == 'yes'` is modelled as string equality. This is exact because `yes` is not numeric.
- The five independent type tests of the module loop are one case analysis (`ModuleGenerator.ModuleActions`): at most one of them can hold.
