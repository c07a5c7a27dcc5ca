/**
 * `ModuleGenerator::generateConf` (Generator/ModuleGenerator.php:40-132) as
 * a plan: the parameter array handed to the templates, and the ordered file
 * actions the generator performs. Twig rendering and the file system are not
 * modelled; an action only records which template or skeleton file goes to
 * which target path, and with which parameters.
 */
module ModuleGenerator {
  import opened Php

  /** A PHP array with string keys, as handed to `renderFile`. */
  type Params = map<string, Value>

  /**
   * One effect of `generateConf`. Templates are named relative to the
   * skeleton directory; `Copy` sources likewise.
   */
  datatype Action =
    | Render(template: string, target: string, parameters: Params)
    | Copy(source: string, target: string)
    | Remove(target: string)

  /** The arguments of `generateConf`, in their order. */
  datatype Request = Request(
    namespace: string,
    bundleName: string,
    dir: string,
    moduleType: string,
    modules: seq<Module>,
    packageLicense: string,
    packageWebsite: string,
    packageDescription: string,
    vendorName: string,
    authorName: string,
    authorEmail: string,
    packageName: string,
    routing: string)

  /** What `generateConf` produces: the bundle parameters and the actions in order. */
  datatype Plan = Plan(parameters: Params, actions: seq<Action>)

  // ---------------------------------------------------------------------------
  // Derived strings
  // ---------------------------------------------------------------------------

  /** `str_replace("\\", "\\\\", $namespace)`: every backslash doubled. */
  function EscapeBackslashes(s: string): (r: string)
    ensures |r| == |s| + Count(s, '\\')
    ensures '\\' !in s ==> r == s
  {
    if s == [] then []
    else (if s[0] == '\\' then "\\\\" else [s[0]]) + EscapeBackslashes(s[1..])
  }

  /** Reads a doubled backslash as one backslash. */
  function CollapseBackslashes(s: string): string
  {
    if s == [] then []
    else if |s| >= 2 && s[0] == '\\' && s[1] == '\\' then "\\" + CollapseBackslashes(s[2..])
    else [s[0]] + CollapseBackslashes(s[1..])
  }

  /** The escaped namespace reads back as the namespace. */
  lemma {:induction false} CollapseEscape(s: string)
    ensures CollapseBackslashes(EscapeBackslashes(s)) == s
  {
    if s != [] {
      CollapseEscape(s[1..]);
      var e := EscapeBackslashes(s[1..]);
      if s[0] == '\\' {
        assert EscapeBackslashes(s) == "\\\\" + e;
        assert ("\\\\" + e)[2..] == e;
      } else {
        assert EscapeBackslashes(s) == [s[0]] + e;
        assert ([s[0]] + e)[1..] == e;
      }
    }
  }

  /** `$dir .= '/'.strtr($namespace, '\\', '/')`: the directory the bundle is written to. */
  function OutputRoot(dir: string, namespace: string): (root: string)
    ensures |root| == |dir| + 1 + |namespace|
    ensures root[..|dir| + 1] == dir + "/"
    ensures '\\' !in root[|dir| + 1..]
    ensures forall i :: 0 <= i < |namespace| ==>
              root[|dir| + 1 + i] == (if namespace[i] == '\\' then '/' else namespace[i])
  {
    ReplaceCharRemoves(namespace, '\\', '/');
    assert (dir + "/" + ReplaceChar(namespace, '\\', '/'))[|dir| + 1..] == ReplaceChar(namespace, '\\', '/');
    dir + "/" + ReplaceChar(namespace, '\\', '/')
  }

  /** A namespace without `/` can be read back from the output root. */
  lemma OutputRootRecoversNamespace(dir: string, namespace: string)
    requires '/' !in namespace
    ensures ReplaceChar(OutputRoot(dir, namespace)[|dir| + 1..], '/', '\\') == namespace
  {
    var tail := ReplaceChar(namespace, '\\', '/');
    assert OutputRoot(dir, namespace)[|dir| + 1..] == tail;
    ReplaceThereAndBack(namespace, '\\', '/');
    assert ReplaceChar(namespace, '/', '\\') == namespace;
  }

  /** `str_replace(array('/', '-'), '_', $packageName)`. */
  function RoutePrefix(package: string): (r: string)
    ensures |r| == |package|
    ensures '/' !in r && '-' !in r
    ensures forall i :: 0 <= i < |r| && package[i] != '/' && package[i] != '-' ==> r[i] == package[i]
  {
    ReplaceChar(ReplaceChar(package, '/', '_'), '-', '_')
  }

  /** Positions of the route prefix holding `_` are exactly those of `/`, `-` or `_` in the package. */
  lemma RoutePrefixUnderscores(package: string)
    ensures forall i :: 0 <= i < |package| ==>
              (RoutePrefix(package)[i] == '_' <==> package[i] in "/-_")
  {
  }

  /**
   * The suffix part of the read view and stylesheet names: nothing for a
   * PHP-empty suffix, otherwise `_` and the suffix with `-` turned into `_`,
   * lowercased.
   */
  function SuffixPart(m: Module): (r: string)
    ensures r == "" <==> Empty(Get(m, SuffixKey))
    ensures r != "" ==> r[0] == '_' && '-' !in r && IsLowerCase(r)
    ensures r != "" ==> |r| == 1 + |ToStr(Get(m, SuffixKey))|
    ensures r != "" ==> r == "_" + Lower(ReplaceChar(ToStr(Get(m, SuffixKey)), '-', '_'))
  {
    var v := Get(m, SuffixKey);
    if Empty(v) then ""
    else
      var s := ReplaceChar(ToStr(v), '-', '_');
      LowerFixesLowerCase(s);
      assert '-' !in Lower(s) by {
        forall i | 0 <= i < |s| ensures Lower(s)[i] != '-' {
          assert s[i] != '-';
        }
      }
      "_" + Lower(s)
  }

  /** A suffix of `"0"` is PHP-empty: the files are named as if there were none. */
  lemma ZeroSuffixIsNoSuffix(m: Module)
    requires Get(m, SuffixKey) == Str("0")
    ensures SuffixPart(m) == "" && SuffixPart(m) == SuffixPart(m - {SuffixKey})
  {
  }

  /** `$iconFileName`: the hyphenated module name, plus `-` and the hyphenated suffix when there is a suffix. */
  function IconFileName(m: Module): (r: string)
    ensures var base := ToStr(Get(m, "module_name_hyphen"));
            && |r| >= |base|
            && r[..|base|] == base
            && (|r| > |base| <==> IsSet(m, SuffixKey) && !Empty(Get(m, SuffixKey)))
            && (|r| > |base| ==> r[|base|..] == "-" + ToStr(Get(m, "module_name_suffix_hyphen")))
  {
    var name := ToStr(Get(m, "module_name_hyphen"));
    if IsSet(m, SuffixKey) && !Empty(Get(m, SuffixKey)) then
      assert (name + "-" + ToStr(Get(m, "module_name_suffix_hyphen")))[..|name|] == name;
      name + "-" + ToStr(Get(m, "module_name_suffix_hyphen"))
    else name
  }

  // ---------------------------------------------------------------------------
  // Target paths
  // ---------------------------------------------------------------------------

  /** `$dir.'/'.$rel`. */
  function Path(root: string, rel: string): (p: string)
    ensures Under(p, root) && RelativePart(p, root) == rel
  {
    assert (root + "/" + rel)[..|root| + 1] == root + "/";
    assert (root + "/" + rel)[|root| + 1..] == rel;
    root + "/" + rel
  }

  /** `path` lies inside the directory `root`. */
  predicate Under(path: string, root: string) {
    |path| > |root| && path[..|root| + 1] == root + "/"
  }

  /** The part of `path` after `root/`. */
  function RelativePart(path: string, root: string): string
    requires Under(path, root)
  {
    path[|root| + 1..]
  }

  /** Different relative parts give different targets. */
  lemma PathInjective(root: string, a: string, b: string)
    ensures Path(root, a) == Path(root, b) <==> a == b
  {
  }

  const ServicesFile := "Resources/config/services.yml"
  const FieldsFile := "Resources/views/Form/fields.html.twig"
  const ManifestFile := "campaignchain.yml"
  const ComposerFile := "composer.json"
  const ConfigFile := "Resources/config/config.yml"
  const RoutingFile := "Resources/config/routing.yml"

  /** The relative paths `generateConf` writes once per bundle. */
  predicate BundleFile(rel: string) {
    rel in {ServicesFile, FieldsFile, ManifestFile, ComposerFile, ConfigFile, RoutingFile}
  }

  /** The directories the per-module files go to (the last two are file-name prefixes). */
  datatype ModuleDir = JobDir | FormTypeDir | EntityDir | ControllerDir | ServiceDir | ReadViewDir | PublicDir

  function DirName(d: ModuleDir): string {
    match d
    case JobDir => "Job/"
    case FormTypeDir => "Form/Type/"
    case EntityDir => "Entity/"
    case ControllerDir => "Controller/"
    case ServiceDir => "Service/"
    case ReadViewDir => "Resources/views/read"
    case PublicDir => "Resources/public/"
  }

  /** Bytes that set the per-bundle files apart. */
  lemma BundleFileLetters(rel: string)
    requires BundleFile(rel)
    ensures |rel| > 0
    ensures rel[0] == 'c' || (|rel| > 16 && rel[0] == 'R' && (rel[10] == 'c' || (rel[10] == 'v' && rel[16] == 'F')))
  {
  }

  /** No per-module file lands on a per-bundle file, whatever the class name or suffix. */
  lemma ModuleFileIsNotBundleFile(d: ModuleDir, rest: string)
    ensures !BundleFile(DirName(d) + rest)
  {
    var n := DirName(d);
    var rel := n + rest;
    if BundleFile(rel) {
      BundleFileLetters(rel);
    }
  }

  // ---------------------------------------------------------------------------
  // Actions and their targets
  // ---------------------------------------------------------------------------

  /** The actions of `r` aimed at `path`, in order. */
  function Targeting(r: seq<Action>, path: string): (f: seq<Action>)
    ensures |f| <= |r|
    ensures forall a :: a in f <==> a in r && a.target == path
  {
    if r == [] then []
    else (if r[0].target == path then [r[0]] else []) + Targeting(r[1..], path)
  }

  /** Filtering distributes over concatenation. */
  lemma {:induction false} TargetingConcat(x: seq<Action>, y: seq<Action>, path: string)
    ensures Targeting(x + y, path) == Targeting(x, path) + Targeting(y, path)
  {
    if x == [] {
      assert x + y == y;
    } else {
      assert (x + y)[0] == x[0];
      assert (x + y)[1..] == x[1..] + y;
      TargetingConcat(x[1..], y, path);
    }
  }

  /** Every action targets a file under `root` other than the per-bundle files. */
  predicate ModuleTargets(r: seq<Action>, root: string) {
    forall a :: a in r ==> Under(a.target, root) && !BundleFile(RelativePart(a.target, root))
  }

  /** Every action targets a per-bundle file under `root`. */
  predicate BundleTargets(r: seq<Action>, root: string) {
    forall a :: a in r ==> Under(a.target, root) && BundleFile(RelativePart(a.target, root))
  }

  /** Every render gets exactly `parameters`. */
  predicate RendersWith(r: seq<Action>, parameters: Params) {
    forall a :: a in r && a.Render? ==> a.parameters == parameters
  }

  lemma ModuleTargetsConcat(x: seq<Action>, y: seq<Action>, root: string)
    ensures ModuleTargets(x + y, root) <==> ModuleTargets(x, root) && ModuleTargets(y, root)
  {
    assert forall a :: a in x + y <==> a in x || a in y;
  }

  lemma BundleTargetsConcat(x: seq<Action>, y: seq<Action>, root: string)
    ensures BundleTargets(x + y, root) <==> BundleTargets(x, root) && BundleTargets(y, root)
  {
    assert forall a :: a in x + y <==> a in x || a in y;
  }

  lemma RendersWithConcat(x: seq<Action>, y: seq<Action>, parameters: Params)
    ensures RendersWith(x + y, parameters) <==> RendersWith(x, parameters) && RendersWith(y, parameters)
  {
    assert forall a :: a in x + y <==> a in x || a in y;
  }

  /** Per-module actions never aim at a per-bundle file. */
  lemma ModuleTargetsMissBundleFiles(r: seq<Action>, root: string, rel: string)
    requires ModuleTargets(r, root) && BundleFile(rel)
    ensures Targeting(r, Path(root, rel)) == []
  {

  }

  // ---------------------------------------------------------------------------
  // Per-module actions (Generator/ModuleGenerator.php:66-101)
  // ---------------------------------------------------------------------------

  /** The outcome of the tests `strtolower($moduleType) == '…'`; at most one of them holds. */
  datatype TypeTest = IsOperation | IsActivity | IsCampaign | IsChannel | IsReport | IsLocation | NoneOfThem

  function TypeOf(moduleType: string): (k: TypeTest)
    ensures k == IsOperation <==> Lower(moduleType) == "operation"
    ensures k == IsActivity <==> Lower(moduleType) == "activity"
    ensures k == IsCampaign <==> Lower(moduleType) == "campaign"
    ensures k == IsChannel <==> Lower(moduleType) == "channel"
    ensures k == IsReport <==> Lower(moduleType) == "report"
    ensures k == IsLocation <==> Lower(moduleType) == "location"
  {
    var t := Lower(moduleType);
    if t == "operation" then IsOperation
    else if t == "activity" then IsActivity
    else if t == "campaign" then IsCampaign
    else if t == "channel" then IsChannel
    else if t == "report" then IsReport
    else if t == "location" then IsLocation
    else NoneOfThem
  }

  /** Number of per-module actions for a module type. */
  function PerModuleCount(moduleType: string): (n: nat)
    ensures n > 0 <==> Lower(moduleType) in {"operation", "activity", "campaign", "channel", "report"}
  {
    match TypeOf(moduleType)
    case IsOperation => 6
    case IsChannel => 4
    case IsActivity => 1
    case IsCampaign => 1
    case IsReport => 1
    case _ => 0
  }

  /** One render into a per-module directory. */
  function ModuleRender(root: string, template: string, d: ModuleDir, rest: string, merged: Params): (r: seq<Action>)
    ensures r == [Render(template, Path(root, DirName(d) + rest), merged)]
    ensures ModuleTargets(r, root) && RendersWith(r, merged)
  {
    ModuleFileIsNotBundleFile(d, rest);
    [Render(template, Path(root, DirName(d) + rest), merged)]
  }

  /** The four PHP classes of an operation module (lines 69-72). */
  function OperationClasses(root: string, cls: string, merged: Params): (r: seq<Action>)
    ensures |r| == 4 && ModuleTargets(r, root) && RendersWith(r, merged)
  {
    var a := ModuleRender(root, "job/Job.php.twig", JobDir, "Job.php", merged);
    var b := ModuleRender(root, "job/Report.php.twig", JobDir, cls + "Report.php", merged);
    var c := ModuleRender(root, "form/OperationType.php.twig", FormTypeDir, cls + "OperationType.php", merged);
    var d := ModuleRender(root, "entity/Entity.php.twig", EntityDir, cls + ".php", merged);
    ModuleTargetsConcat(a, b, root);
    RendersWithConcat(a, b, merged);
    ModuleTargetsConcat(a + b, c, root);
    RendersWithConcat(a + b, c, merged);
    ModuleTargetsConcat(a + b + c, d, root);
    RendersWithConcat(a + b + c, d, merged);
    a + b + c + d
  }

  /** The read view and stylesheet of an operation module, named with the suffix part (lines 73-74). */
  function OperationViews(root: string, m: Module, merged: Params): (r: seq<Action>)
    ensures |r| == 2 && ModuleTargets(r, root) && RendersWith(r, merged)
    ensures r[0].target == Path(root, "Resources/views/read" + (SuffixPart(m) + ".html.twig"))
    ensures r[1].target == Path(root, "Resources/public/" + ("css/" + ToStr(Get(m, "module_name_underscore")) + SuffixPart(m) + ".css"))
  {
    var sfx := SuffixPart(m);
    var e := ModuleRender(root, "views/read.html.twig", ReadViewDir, sfx + ".html.twig", merged);
    var f := ModuleRender(root, "public/css/base.css.twig", PublicDir,
                          "css/" + ToStr(Get(m, "module_name_underscore")) + sfx + ".css", merged);
    ModuleTargetsConcat(e, f, root);
    RendersWithConcat(e, f, merged);
    e + f
  }

  /** The six renders of an operation module (lines 69-74). */
  function OperationActions(root: string, m: Module, merged: Params): (r: seq<Action>)
    ensures |r| == 6 && ModuleTargets(r, root) && RendersWith(r, merged)
  {
    var a := OperationClasses(root, ToStr(Get(m, "class_name")), merged);
    var b := OperationViews(root, m, merged);
    ModuleTargetsConcat(a, b, root);
    RendersWithConcat(a, b, merged);
    a + b
  }

  /** The three icon sizes a channel gets. */
  datatype IconSize = Small | Medium | Large

  /** The skeleton icon copied for a size. */
  function IconSource(s: IconSize): string {
    match s
    case Small => "public/images/icons/16x16/channel.png"
    case Medium => "public/images/icons/24x24/channel.png"
    case Large => "public/images/icons/32x32/channel.png"
  }

  /** The bundle directory an icon of that size goes to. */
  function IconDir(s: IconSize): string {
    match s
    case Small => "Resources/public/images/icons/16x16/"
    case Medium => "Resources/public/images/icons/24x24/"
    case Large => "Resources/public/images/icons/32x32/"
  }

  /** Every file under `Resources/public/` is a per-module file, never a per-bundle one. */
  lemma PublicFileIsNotBundleFile(rel: string)
    requires |rel| > 10 && rel[0] == 'R' && rel[10] == 'p'
    ensures !BundleFile(rel)
  {
    if BundleFile(rel) {
      BundleFileLetters(rel);
    }
  }

  /** One icon copy into a size directory. */
  function IconCopy(root: string, s: IconSize, icon: string): (r: seq<Action>)
    ensures |r| == 1 && r[0].Copy? && r[0].target == Path(root, IconDir(s) + icon + ".png")
    ensures ModuleTargets(r, root)
  {
    var rel := IconDir(s) + icon + ".png";
    PublicFileIsNotBundleFile(rel);
    [Copy(IconSource(s), Path(root, rel))]
  }

  /** The three icon copies of a channel module (lines 94-96): one icon name, three sizes. */
  function IconCopies(root: string, icon: string): (r: seq<Action>)
    ensures |r| == 3 && ModuleTargets(r, root)
    ensures forall a :: a in r ==> a.Copy?
  {
    var a := IconCopy(root, Small, icon);
    var b := IconCopy(root, Medium, icon);
    var c := IconCopy(root, Large, icon);
    ModuleTargetsConcat(a, b, root);
    ModuleTargetsConcat(a + b, c, root);
    a + b + c
  }

  /** The controller and icons of a channel module (lines 83-96). */
  function ChannelActions(root: string, m: Module, merged: Params): (r: seq<Action>)
    ensures |r| == 4 && ModuleTargets(r, root) && RendersWith(r, merged)
    ensures r[0].Render? && r[1..] == IconCopies(root, IconFileName(m))
  {
    var c := ModuleRender(root, "controller/ChannelController.php.twig", ControllerDir,
                          ToStr(Get(m, "class_name")) + "Controller.php", merged);
    var icons := IconCopies(root, IconFileName(m));
    ModuleTargetsConcat(c, icons, root);
    RendersWithConcat(c, icons, merged);
    assert (c + icons)[1..] == icons;
    c + icons
  }

  /**
   * The actions of one pass of the `foreach ($modules as $module)` loop. The
   * source makes five independent `strtolower($moduleType) == …` tests; at
   * most one of them holds, so they are written here as one case analysis.
   */
  function ModuleActions(root: string, moduleType: string, params: Params, m: Module): (r: seq<Action>)
    ensures |r| == PerModuleCount(moduleType)
    ensures ModuleTargets(r, root) && RendersWith(r, params + m)
  {
    var cls := ToStr(Get(m, "class_name"));
    var merged := params + m;
    match TypeOf(moduleType)
    case IsOperation => OperationActions(root, m, merged)
    case IsActivity =>
      ModuleRender(root, "controller/ActivityHandler.php.twig", ControllerDir, cls + "Handler.php", merged)
    case IsCampaign => ModuleRender(root, "job/Job.php.twig", ServiceDir, "Job.php", merged)
    case IsChannel => ChannelActions(root, m, merged)
    case IsReport =>
      ModuleRender(root, "controller/ReportController.php.twig", ControllerDir, cls + "Controller.php", merged)
    case _ => []
  }

  /** The whole `foreach ($modules as $module)` loop. */
  function ModulesActions(root: string, moduleType: string, params: Params, modules: seq<Module>): (r: seq<Action>)
    ensures |r| == |modules| * PerModuleCount(moduleType)
    ensures ModuleTargets(r, root)
  {
    if modules == [] then []
    else
      var head := ModuleActions(root, moduleType, params, modules[0]);
      var tail := ModulesActions(root, moduleType, params, modules[1..]);
      ModuleTargetsConcat(head, tail, root);
      assert |modules| * PerModuleCount(moduleType)
          == PerModuleCount(moduleType) + (|modules| - 1) * PerModuleCount(moduleType);
      head + tail
  }

  /** The block `k` of `head + tail`, when `head` is one block long, is the block `k - 1` of `tail`. */
  lemma BlockAfterHead(head: seq<Action>, tail: seq<Action>, c: nat, k: nat)
    requires |head| == c && 0 < k && k * c <= |head| + |tail| && (k + 1) * c <= |head| + |tail|
    ensures 0 <= (k - 1) * c <= k * c <= |tail|
    ensures (head + tail)[k * c..(k + 1) * c] == tail[(k - 1) * c..k * c]
  {
    assert k * c == c + (k - 1) * c && (k + 1) * c == c + k * c;
  }

  lemma {:induction false} MulNonNeg(c: nat, k: nat)
    ensures 0 <= k * c
  {
    if k > 0 {
      MulNonNeg(c, k - 1);
      assert k * c == (k - 1) * c + c;
    }
  }

  /** Block `k` of `n` blocks of `c` lies inside the whole. */
  lemma {:induction false} BlockBounds(c: nat, k: nat, n: nat)
    requires k < n
    ensures 0 <= k * c <= (k + 1) * c <= n * c
  {
    MulNonNeg(c, k);
    assert (k + 1) * c == k * c + c;
    if k + 1 < n {
      BlockBounds(c, k, n - 1);
      assert n * c == (n - 1) * c + c;
    }
  }

  /** The block `0` of `head + tail`, when `head` is one block long, is `head`. */
  lemma FirstBlock(head: seq<Action>, tail: seq<Action>, c: nat)
    requires |head| == c
    ensures (head + tail)[0 * c..(0 + 1) * c] == head
  {
    assert (head + tail)[..c] == head;
  }

  /** The loop's actions are the per-module blocks one after another, in module order. */
  lemma {:induction false} ModulesActionsBlocks(root: string, moduleType: string, params: Params, modules: seq<Module>, k: nat)
    requires k < |modules|
    ensures var c := PerModuleCount(moduleType);
            var r := ModulesActions(root, moduleType, params, modules);
            && 0 <= k * c <= (k + 1) * c <= |r|
            && r[k * c..(k + 1) * c] == ModuleActions(root, moduleType, params, modules[k])
  {
    var c := PerModuleCount(moduleType);
    var head := ModuleActions(root, moduleType, params, modules[0]);
    var tail := ModulesActions(root, moduleType, params, modules[1..]);
    var r := ModulesActions(root, moduleType, params, modules);
    assert r == head + tail;
    BlockBounds(c, k, |modules|);
    if k == 0 {
      FirstBlock(head, tail, c);
    } else {
      ModulesActionsBlocks(root, moduleType, params, modules[1..], k - 1);
      assert modules[1..][k - 1] == modules[k];
      BlockAfterHead(head, tail, c, k);
    }
  }

  // ---------------------------------------------------------------------------
  // Per-bundle actions (Generator/ModuleGenerator.php:104-131)
  // ---------------------------------------------------------------------------

  /** The module types that get their own `services.yml`. */
  predicate HasServices(moduleType: string) {
    TypeOf(moduleType) in {IsActivity, IsLocation, IsOperation, IsCampaign}
  }

  /** Number of per-bundle actions: the services file, the form theme, three common files, routing. */
  function BundleCount(moduleType: string): (n: nat)
    ensures 4 <= n <= 6
    ensures n == 4 <==> !HasServices(moduleType)
  {
    (if HasServices(moduleType) then 1 else 0) + (if TypeOf(moduleType) == IsOperation then 1 else 0) + 4
  }

  /** One render of a per-bundle file with the bundle parameters. */
  function BundleRender(root: string, template: string, rel: string, params: Params): (r: seq<Action>)
    requires BundleFile(rel)
    ensures r == [Render(template, Path(root, rel), params)]
    ensures BundleTargets(r, root) && RendersWith(r, params)
  {
    [Render(template, Path(root, rel), params)]
  }

  /** Lines 104-120: the type's own `services.yml`, and the form theme for operations. */
  function ServiceActions(root: string, moduleType: string, params: Params): (r: seq<Action>)
    ensures |r| == (if HasServices(moduleType) then 1 else 0) + (if TypeOf(moduleType) == IsOperation then 1 else 0)
    ensures BundleTargets(r, root) && RendersWith(r, params)
  {
    var t := TypeOf(moduleType);
    var act := if t == IsActivity then BundleRender(root, "config/activity_services.yml.twig", ServicesFile, params) else [];
    var loc := if t == IsLocation then BundleRender(root, "config/location_services.yml.twig", ServicesFile, params) else [];
    var op := if t == IsOperation then
                BundleRender(root, "config/operation_services.yml.twig", ServicesFile, params)
                + BundleRender(root, "views/fields.html.twig", FieldsFile, params)
              else [];
    var camp := if t == IsCampaign then BundleRender(root, "config/campaign_services.yml.twig", ServicesFile, params) else [];
    BundleTargetsConcat(act, loc, root);
    RendersWithConcat(act, loc, params);
    BundleTargetsConcat(act + loc, op, root);
    RendersWithConcat(act + loc, op, params);
    BundleTargetsConcat(act + loc + op, camp, root);
    RendersWithConcat(act + loc + op, camp, params);
    act + loc + op + camp
  }

  /** Lines 122-124: the files every bundle gets. */
  function CommonActions(root: string, params: Params): (r: seq<Action>)
    ensures r == [ Render("config/campaignchain.yml.twig", Path(root, ManifestFile), params),
                   Render("config/composer.json.twig", Path(root, ComposerFile), params),
                   Render("config/config.yml.twig", Path(root, ConfigFile), params) ]
    ensures BundleTargets(r, root) && RendersWith(r, params)
  {
    var a := BundleRender(root, "config/campaignchain.yml.twig", ManifestFile, params);
    var b := BundleRender(root, "config/composer.json.twig", ComposerFile, params);
    var c := BundleRender(root, "config/config.yml.twig", ConfigFile, params);
    BundleTargetsConcat(a, b, root);
    RendersWithConcat(a, b, params);
    BundleTargetsConcat(a + b, c, root);
    RendersWithConcat(a + b, c, params);
    a + b + c
  }

  /** Lines 125-131: render the routing file, or remove the one the bundle skeleton left. */
  function RoutingAction(root: string, params: Params, routing: string): (r: Action)
    ensures r.target == Path(root, RoutingFile)
    ensures r.Render? <==> routing == "yes"
    ensures r.Render? ==> r.template == "config/routing.yml.twig" && r.parameters == params
    ensures !r.Copy?
  {
    if routing == "yes" then Render("config/routing.yml.twig", Path(root, RoutingFile), params)
    else Remove(Path(root, RoutingFile))
  }

  /** The per-bundle actions: services, common files, routing. */
  function BundleActions(root: string, moduleType: string, params: Params, routing: string): (r: seq<Action>)
    ensures |r| == BundleCount(moduleType)
    ensures BundleTargets(r, root) && RendersWith(r, params)
  {
    var s := ServiceActions(root, moduleType, params);
    var c := CommonActions(root, params);
    var g := [RoutingAction(root, params, routing)];
    BundleTargetsConcat(s, c, root);
    RendersWithConcat(s, c, params);
    BundleTargetsConcat(s + c, g, root);
    RendersWithConcat(s + c, g, params);
    s + c + g
  }

  // ---------------------------------------------------------------------------
  // The parameter array (Generator/ModuleGenerator.php:46-63)
  // ---------------------------------------------------------------------------

  /** The keys every parameter array has. */
  const BaseKeys: set<string> := {
    "namespace", "bundle_name", "module_type", "modules", "package_license", "package_website",
    "vendor_name", "author_name", "author_email", "package_name", "package_description", "gen_routing"
  }

  /** `$modules` as a PHP value: a list of module arrays. */
  function ModulesValue(modules: seq<Module>): (v: Value)
    ensures v.List? && |v.items| == |modules|
    ensures forall i :: 0 <= i < |modules| ==> v.items[i] == Dict(modules[i])
  {
    List(seq(|modules|, i requires 0 <= i < |modules| => Dict(modules[i])))
  }

  /** The array literal of lines 46-59. */
  function BaseParameters(q: Request): (r: Params)
    ensures r.Keys == BaseKeys
  {
    map[
      "namespace" := Str(EscapeBackslashes(q.namespace)),
      "bundle_name" := Str(q.bundleName),
      "module_type" := Str(q.moduleType),
      "modules" := ModulesValue(q.modules),
      "package_license" := Str(q.packageLicense),
      "package_website" := Str(q.packageWebsite),
      "vendor_name" := Str(q.vendorName),
      "author_name" := Str(q.authorName),
      "author_email" := Str(q.authorEmail),
      "package_name" := Str(q.packageName),
      "package_description" := Str(q.packageDescription),
      "gen_routing" := Str(q.routing)
    ]
  }

  /** The array `$parameters`, with `route_prefix` added when routing was asked for (lines 61-63). */
  function BundleParameters(q: Request): (r: Params)
    ensures r.Keys == BaseKeys + (if q.routing == "yes" then {"route_prefix"} else {})
  {
    var base := BaseParameters(q);
    if q.routing == "yes" then base["route_prefix" := Str(RoutePrefix(q.packageName))] else base
  }

  // ---------------------------------------------------------------------------
  // generateConf
  // ---------------------------------------------------------------------------

  /** `generateConf`: the per-module loop, then the per-bundle files. */
  function GenerateConf(q: Request): (p: Plan)
    ensures |p.actions| == |q.modules| * PerModuleCount(q.moduleType) + BundleCount(q.moduleType)
    ensures p.parameters.Keys == BaseKeys + (if q.routing == "yes" then {"route_prefix"} else {})
    ensures forall a :: a in p.actions ==> Under(a.target, OutputRoot(q.dir, q.namespace))
    ensures p.parameters == BundleParameters(q)
    ensures var root := OutputRoot(q.dir, q.namespace);
            p.actions == ModulesActions(root, q.moduleType, p.parameters, q.modules)
                         + BundleActions(root, q.moduleType, p.parameters, q.routing)
  {
    var root := OutputRoot(q.dir, q.namespace);
    var params := BundleParameters(q);
    var mods := ModulesActions(root, q.moduleType, params, q.modules);
    var bundle := BundleActions(root, q.moduleType, params, q.routing);
    assert forall a :: a in mods + bundle <==> a in mods || a in bundle;
    Plan(params, mods + bundle)
  }

  /** What the plan does to a per-bundle file is decided by the per-bundle actions alone. */
  lemma PlanTargetingBundleFile(q: Request, rel: string)
    requires BundleFile(rel)
    ensures var root := OutputRoot(q.dir, q.namespace);
            var params := BundleParameters(q);
            var path := Path(root, rel);
            Targeting(GenerateConf(q).actions, path)
            == Targeting(ServiceActions(root, q.moduleType, params), path)
               + Targeting(CommonActions(root, params), path)
               + Targeting([RoutingAction(root, params, q.routing)], path)
  {
    var root := OutputRoot(q.dir, q.namespace);
    var params := BundleParameters(q);
    var path := Path(root, rel);
    var mods := ModulesActions(root, q.moduleType, params, q.modules);
    var s := ServiceActions(root, q.moduleType, params);
    var c := CommonActions(root, params);
    var g := [RoutingAction(root, params, q.routing)];
    assert GenerateConf(q).actions == mods + (s + c + g);
    TargetingConcat(mods, s + c + g, path);
    ModuleTargetsMissBundleFiles(mods, root, rel);
    TargetingConcat(s + c, g, path);
    TargetingConcat(s, c, path);
  }

  /** The services actions touch no common file and not the routing file. */
  lemma ServicesMiss(root: string, moduleType: string, params: Params, rel: string)
    requires rel != ServicesFile && rel != FieldsFile
    ensures Targeting(ServiceActions(root, moduleType, params), Path(root, rel)) == []
  {
    ServiceActionsTargeting(root, moduleType, params, rel);
  }

  /** The common actions touch neither the services, form-theme nor routing file. */
  lemma CommonMiss(root: string, params: Params, rel: string)
    requires rel in {ServicesFile, FieldsFile, RoutingFile}
    ensures Targeting(CommonActions(root, params), Path(root, rel)) == []
  {
    CommonActionsTargeting(root, params, rel);
  }

  /** The routing action touches only the routing file. */
  lemma RoutingMiss(root: string, params: Params, routing: string, rel: string)
    requires rel != RoutingFile
    ensures Targeting([RoutingAction(root, params, routing)], Path(root, rel)) == []
  {
    TargetingSingle(RoutingAction(root, params, routing), Path(root, rel));
    PathInjective(root, rel, RoutingFile);
  }

  /** A singleton aimed elsewhere filters to nothing; aimed here, to itself. */
  lemma TargetingSingle(a: Action, path: string)
    ensures Targeting([a], path) == if a.target == path then [a] else []
  {
    assert [a][1..] == [];
  }

  /** Lines 104-120 per target: which service file and form theme each module type gets. */
  lemma ServiceActionsTargeting(root: string, moduleType: string, params: Params, rel: string)
    ensures Targeting(ServiceActions(root, moduleType, params), Path(root, rel))
            == if rel == ServicesFile && HasServices(moduleType) then
                 [Render(ServicesTemplate(TypeOf(moduleType)), Path(root, ServicesFile), params)]
               else if rel == FieldsFile && TypeOf(moduleType) == IsOperation then
                 [Render("views/fields.html.twig", Path(root, FieldsFile), params)]
               else []
  {
    var path := Path(root, rel);
    var t := TypeOf(moduleType);
    var s := ServiceActions(root, moduleType, params);
    PathInjective(root, rel, ServicesFile);
    PathInjective(root, rel, FieldsFile);
    if t == IsOperation {
      var a := Render("config/operation_services.yml.twig", Path(root, ServicesFile), params);
      var b := Render("views/fields.html.twig", Path(root, FieldsFile), params);
      assert s == [a] + [b];
      TargetingConcat([a], [b], path);
      TargetingSingle(a, path);
      TargetingSingle(b, path);
    } else if t in {IsActivity, IsLocation, IsCampaign} {
      var a := Render(ServicesTemplate(t), Path(root, ServicesFile), params);
      SingleServiceFile(root, moduleType, params);
      TargetingSingle(a, path);
    } else {
      assert s == [];
    }
  }

  /** Activity, location and campaign modules get only their own services file. */
  lemma SingleServiceFile(root: string, moduleType: string, params: Params)
    requires TypeOf(moduleType) in {IsActivity, IsLocation, IsCampaign}
    ensures ServiceActions(root, moduleType, params)
            == [Render(ServicesTemplate(TypeOf(moduleType)), Path(root, ServicesFile), params)]
  {
  }

  /** The services template of each type that has one: `config/<type>_services.yml.twig`. */
  function ServicesTemplate(k: TypeTest): string {
    match k
    case IsActivity => "config/activity_services.yml.twig"
    case IsLocation => "config/location_services.yml.twig"
    case IsOperation => "config/operation_services.yml.twig"
    case IsCampaign => "config/campaign_services.yml.twig"
    case _ => ""
  }

  /** Lines 122-124 per target: the three common files, each from its template. */
  lemma CommonActionsTargeting(root: string, params: Params, rel: string)
    ensures Targeting(CommonActions(root, params), Path(root, rel))
            == if rel == ManifestFile then [Render("config/campaignchain.yml.twig", Path(root, ManifestFile), params)]
               else if rel == ComposerFile then [Render("config/composer.json.twig", Path(root, ComposerFile), params)]
               else if rel == ConfigFile then [Render("config/config.yml.twig", Path(root, ConfigFile), params)]
               else []
  {
    var path := Path(root, rel);
    var a := Render("config/campaignchain.yml.twig", Path(root, ManifestFile), params);
    var b := Render("config/composer.json.twig", Path(root, ComposerFile), params);
    var c := Render("config/config.yml.twig", Path(root, ConfigFile), params);
    assert CommonActions(root, params) == [a] + [b] + [c];
    TargetingConcat([a] + [b], [c], path);
    TargetingConcat([a], [b], path);
    TargetingSingle(a, path);
    TargetingSingle(b, path);
    TargetingSingle(c, path);
    PathInjective(root, rel, ManifestFile);
    PathInjective(root, rel, ComposerFile);
    PathInjective(root, rel, ConfigFile);
  }

  /**
   * Exactly one action concerns `Resources/config/routing.yml`: it is
   * rendered when the routing answer is `yes`, and removed otherwise.
   */
  lemma RoutingHandledOnce(q: Request)
    ensures var root := OutputRoot(q.dir, q.namespace);
            Targeting(GenerateConf(q).actions, Path(root, RoutingFile))
            == [if q.routing == "yes"
                then Render("config/routing.yml.twig", Path(root, RoutingFile), BundleParameters(q))
                else Remove(Path(root, RoutingFile))]
  {
    var root := OutputRoot(q.dir, q.namespace);
    var params := BundleParameters(q);
    PlanTargetingBundleFile(q, RoutingFile);
    ServicesMiss(root, q.moduleType, params, RoutingFile);
    CommonMiss(root, params, RoutingFile);
    TargetingSingle(RoutingAction(root, params, q.routing), Path(root, RoutingFile));
  }

  /**
   * `services.yml` is rendered once, from the type's own template, for
   * activity, location, operation and campaign modules, and not at all otherwise.
   */
  lemma ServicesFileRendered(q: Request)
    ensures var root := OutputRoot(q.dir, q.namespace);
            Targeting(GenerateConf(q).actions, Path(root, ServicesFile))
            == if HasServices(q.moduleType) then
                 [Render(ServicesTemplate(TypeOf(q.moduleType)), Path(root, ServicesFile), BundleParameters(q))]
               else []
  {
    var root := OutputRoot(q.dir, q.namespace);
    var params := BundleParameters(q);
    PlanTargetingBundleFile(q, ServicesFile);
    ServiceActionsTargeting(root, q.moduleType, params, ServicesFile);
    CommonMiss(root, params, ServicesFile);
    RoutingMiss(root, params, q.routing, ServicesFile);
  }

  /** The form theme `Resources/views/Form/fields.html.twig` is rendered for operations only. */
  lemma FieldsOnlyForOperations(q: Request)
    ensures var root := OutputRoot(q.dir, q.namespace);
            Targeting(GenerateConf(q).actions, Path(root, FieldsFile))
            == if Lower(q.moduleType) == "operation" then
                 [Render("views/fields.html.twig", Path(root, FieldsFile), BundleParameters(q))]
               else []
  {
    var root := OutputRoot(q.dir, q.namespace);
    var params := BundleParameters(q);
    PlanTargetingBundleFile(q, FieldsFile);
    ServiceActionsTargeting(root, q.moduleType, params, FieldsFile);
    CommonMiss(root, params, FieldsFile);
    RoutingMiss(root, params, q.routing, FieldsFile);
  }

  /**
   * `campaignchain.yml`, `composer.json` and `Resources/config/config.yml`
   * are rendered exactly once for every module type, with the bundle
   * parameters only.
   */
  lemma CommonFilesRendered(q: Request)
    ensures var root := OutputRoot(q.dir, q.namespace);
            var actions := GenerateConf(q).actions;
            && Targeting(actions, Path(root, ManifestFile))
               == [Render("config/campaignchain.yml.twig", Path(root, ManifestFile), BundleParameters(q))]
            && Targeting(actions, Path(root, ComposerFile))
               == [Render("config/composer.json.twig", Path(root, ComposerFile), BundleParameters(q))]
            && Targeting(actions, Path(root, ConfigFile))
               == [Render("config/config.yml.twig", Path(root, ConfigFile), BundleParameters(q))]
  {
    var root := OutputRoot(q.dir, q.namespace);
    var params := BundleParameters(q);
    CommonFileRendered(q, ManifestFile);
    CommonFileRendered(q, ComposerFile);
    CommonFileRendered(q, ConfigFile);
    CommonActionsTargeting(root, params, ManifestFile);
    CommonActionsTargeting(root, params, ComposerFile);
    CommonActionsTargeting(root, params, ConfigFile);
  }

  /** The common files are none of the other per-bundle files. */
  lemma CommonFilesApart(rel: string)
    requires rel in {ManifestFile, ComposerFile, ConfigFile}
    ensures rel != ServicesFile && rel != FieldsFile && rel != RoutingFile
  {
    assert ServicesFile[10] == 'c' && ServicesFile[17] == 's';
    assert FieldsFile[10] == 'v';
    assert RoutingFile[10] == 'c' && RoutingFile[17] == 'r';
    assert ConfigFile[10] == 'c' && ConfigFile[17] == 'c';
  }

  /** One common file: only the common actions aim at it. */
  lemma CommonFileRendered(q: Request, rel: string)
    requires rel in {ManifestFile, ComposerFile, ConfigFile}
    ensures var root := OutputRoot(q.dir, q.namespace);
            var params := BundleParameters(q);
            Targeting(GenerateConf(q).actions, Path(root, rel)) == Targeting(CommonActions(root, params), Path(root, rel))
  {
    var root := OutputRoot(q.dir, q.namespace);
    var params := BundleParameters(q);
    CommonFilesApart(rel);
    PlanTargetingBundleFile(q, rel);
    ServicesMiss(root, q.moduleType, params, rel);
    RoutingMiss(root, params, q.routing, rel);
  }

  // ---------------------------------------------------------------------------
  // What each module type gets
  // ---------------------------------------------------------------------------

  /** `"a" + (b + "c")`, read left to right as PHP's `.` does. */
  lemma Assoc(a: string, b: string, c: string)
    ensures a + (b + c) == a + b + c
  {
  }

  /** Lines 69-72: the four classes, with their targets spelled as the source spells them. */
  lemma OperationClassFiles(root: string, cls: string, merged: Params)
    ensures OperationClasses(root, cls, merged) == [
              Render("job/Job.php.twig", Path(root, "Job/Job.php"), merged),
              Render("job/Report.php.twig", Path(root, "Job/" + cls + "Report.php"), merged),
              Render("form/OperationType.php.twig", Path(root, "Form/Type/" + cls + "OperationType.php"), merged),
              Render("entity/Entity.php.twig", Path(root, "Entity/" + cls + ".php"), merged)]
  {
    assert DirName(JobDir) + "Job.php" == "Job/Job.php";
    Assoc("Job/", cls, "Report.php");
    Assoc("Form/Type/", cls, "OperationType.php");
    Assoc("Entity/", cls, ".php");
  }

  /** Lines 73-74: the read view and stylesheet, with their targets spelled as the source spells them. */
  lemma OperationViewFiles(root: string, m: Module, merged: Params)
    ensures var sfx := SuffixPart(m);
            OperationViews(root, m, merged) == [
              Render("views/read.html.twig", Path(root, "Resources/views/read" + sfx + ".html.twig"), merged),
              Render("public/css/base.css.twig",
                     Path(root, "Resources/public/css/" + ToStr(Get(m, "module_name_underscore")) + sfx + ".css"), merged)]
  {
    var sfx := SuffixPart(m);
    var u := ToStr(Get(m, "module_name_underscore"));
    Assoc("Resources/views/read", sfx, ".html.twig");
    Assoc("css/", u, sfx);
    Assoc("css/" + u, sfx, ".css");
    Assoc("Resources/public/", "css/" + u + sfx, ".css");
    Assoc("Resources/public/", "css/" + u, sfx);
    Assoc("Resources/public/", "css/", u);
    assert "Resources/public/" + "css/" == "Resources/public/css/";
  }

  /**
   * Lines 69-74: an operation module gets its job, report, form type, entity,
   * read view and stylesheet, in that order, each rendered with the module's
   * entries merged over the bundle parameters.
   */
  lemma OperationModuleFiles(root: string, moduleType: string, params: Params, m: Module)
    requires Lower(moduleType) == "operation"
    ensures var cls := ToStr(Get(m, "class_name"));
            var sfx := SuffixPart(m);
            var merged := params + m;
            ModuleActions(root, moduleType, params, m) == [
              Render("job/Job.php.twig", Path(root, "Job/Job.php"), merged),
              Render("job/Report.php.twig", Path(root, "Job/" + cls + "Report.php"), merged),
              Render("form/OperationType.php.twig", Path(root, "Form/Type/" + cls + "OperationType.php"), merged),
              Render("entity/Entity.php.twig", Path(root, "Entity/" + cls + ".php"), merged),
              Render("views/read.html.twig", Path(root, "Resources/views/read" + sfx + ".html.twig"), merged),
              Render("public/css/base.css.twig",
                     Path(root, "Resources/public/css/" + ToStr(Get(m, "module_name_underscore")) + sfx + ".css"), merged)]
  {
    var merged := params + m;
    OperationClassFiles(root, ToStr(Get(m, "class_name")), merged);
    OperationViewFiles(root, m, merged);
  }

  /** Line 77: an activity module gets its handler class only. */
  lemma ActivityModuleFiles(root: string, moduleType: string, params: Params, m: Module)
    requires Lower(moduleType) == "activity"
    ensures ModuleActions(root, moduleType, params, m)
            == [Render("controller/ActivityHandler.php.twig",
                       Path(root, "Controller/" + ToStr(Get(m, "class_name")) + "Handler.php"), params + m)]
  {
    var cls := ToStr(Get(m, "class_name"));
    Assoc("Controller/", cls, "Handler.php");
  }

  /** Line 80: a campaign module gets `Service/Job.php`, whatever its class name. */
  lemma CampaignModuleFiles(root: string, moduleType: string, params: Params, m: Module)
    requires Lower(moduleType) == "campaign"
    ensures ModuleActions(root, moduleType, params, m)
            == [Render("job/Job.php.twig", Path(root, "Service/Job.php"), params + m)]
  {
    assert DirName(ServiceDir) + "Job.php" == "Service/Job.php";
  }

  /** Line 99: a report module gets its controller only. */
  lemma ReportModuleFiles(root: string, moduleType: string, params: Params, m: Module)
    requires Lower(moduleType) == "report"
    ensures ModuleActions(root, moduleType, params, m)
            == [Render("controller/ReportController.php.twig",
                       Path(root, "Controller/" + ToStr(Get(m, "class_name")) + "Controller.php"), params + m)]
  {
    var cls := ToStr(Get(m, "class_name"));
    Assoc("Controller/", cls, "Controller.php");
  }

  /** Lines 94-96: the three icon sizes, in order. */
  lemma ChannelIconFiles(root: string, icon: string)
    ensures IconCopies(root, icon) == [
              Copy("public/images/icons/16x16/channel.png", Path(root, "Resources/public/images/icons/16x16/" + icon + ".png")),
              Copy("public/images/icons/24x24/channel.png", Path(root, "Resources/public/images/icons/24x24/" + icon + ".png")),
              Copy("public/images/icons/32x32/channel.png", Path(root, "Resources/public/images/icons/32x32/" + icon + ".png"))]
  {
  }

  /**
   * Lines 83-96: a channel module gets its controller, then the 16x16, 24x24
   * and 32x32 channel icons copied under its icon name.
   */
  lemma ChannelModuleFiles(root: string, moduleType: string, params: Params, m: Module)
    requires Lower(moduleType) == "channel"
    ensures var icon := IconFileName(m);
            ModuleActions(root, moduleType, params, m) == [
              Render("controller/ChannelController.php.twig",
                     Path(root, "Controller/" + ToStr(Get(m, "class_name")) + "Controller.php"), params + m),
              Copy("public/images/icons/16x16/channel.png", Path(root, "Resources/public/images/icons/16x16/" + icon + ".png")),
              Copy("public/images/icons/24x24/channel.png", Path(root, "Resources/public/images/icons/24x24/" + icon + ".png")),
              Copy("public/images/icons/32x32/channel.png", Path(root, "Resources/public/images/icons/32x32/" + icon + ".png"))]
  {
    var cls := ToStr(Get(m, "class_name"));
    var icon := IconFileName(m);
    Assoc("Controller/", cls, "Controller.php");
    ChannelIconFiles(root, icon);
    assert ChannelActions(root, m, params + m)
        == ModuleRender(root, "controller/ChannelController.php.twig", ControllerDir, cls + "Controller.php", params + m)
           + IconCopies(root, icon);
    assert ModuleActions(root, moduleType, params, m) == ChannelActions(root, m, params + m);
  }

  /** Location modules, and any type none of the five tests recognises, get no per-module file. */
  lemma OtherModuleFiles(root: string, moduleType: string, params: Params, m: Module)
    requires Lower(moduleType) !in {"operation", "activity", "campaign", "channel", "report"}
    ensures ModuleActions(root, moduleType, params, m) == []
  {
  }

  // ---------------------------------------------------------------------------
  // Properties of the plan
  // ---------------------------------------------------------------------------

  /** The type tests lowercase `$moduleType` first, so its case decides nothing. */
  lemma TypeOfIgnoresCase(moduleType: string)
    ensures TypeOf(Lower(moduleType)) == TypeOf(moduleType)
  {
    LowerIdempotent(moduleType);
  }

  /**
   * The files written do not depend on the case of the module type: only the
   * `module_type` parameter keeps the type as typed.
   */
  lemma ActionsIgnoreCase(root: string, moduleType: string, params: Params, routing: string, m: Module)
    ensures ModuleActions(root, Lower(moduleType), params, m) == ModuleActions(root, moduleType, params, m)
    ensures BundleActions(root, Lower(moduleType), params, routing) == BundleActions(root, moduleType, params, routing)
  {
    TypeOfIgnoresCase(moduleType);
  }

  /** Where an operation module's read view and stylesheet go: named by its suffix part and underscored name. */
  lemma OperationViewTargets(root: string, moduleType: string, params: Params, m: Module)
    requires Lower(moduleType) == "operation"
    ensures var r := ModuleActions(root, moduleType, params, m);
            && |r| == 6
            && r[4].target == Path(root, "Resources/views/read" + (SuffixPart(m) + ".html.twig"))
            && r[5].target == Path(root, "Resources/public/" + ("css/" + ToStr(Get(m, "module_name_underscore")) + SuffixPart(m) + ".css"))
  {
    var merged := params + m;
    var c := OperationClasses(root, ToStr(Get(m, "class_name")), merged);
    var v := OperationViews(root, m, merged);
    assert ModuleActions(root, moduleType, params, m) == c + v;
    assert (c + v)[4] == v[0] && (c + v)[5] == v[1];
  }

  /**
   * A module whose suffix is `"0"` gets the same read view and stylesheet as
   * the same module without a suffix, because `"0"` is PHP-empty (lines 73-74).
   */
  lemma ZeroSuffixSharesViews(root: string, moduleType: string, params: Params, m: Module)
    requires Lower(moduleType) == "operation"
    requires SuffixKey !in m
    ensures var z := m[SuffixKey := Str("0")];
            var r := ModuleActions(root, moduleType, params, m);
            var s := ModuleActions(root, moduleType, params, z);
            && |r| == |s| == 6
            && r[4].target == s[4].target && r[5].target == s[5].target
  {
    var z := m[SuffixKey := Str("0")];
    assert "module_name_underscore"[12] != SuffixKey[12];
    assert Get(z, "module_name_underscore") == Get(m, "module_name_underscore");
    ZeroSuffixIsNoSuffix(z);
    assert SuffixPart(m) == "";
    OperationViewTargets(root, moduleType, params, m);
    OperationViewTargets(root, moduleType, params, z);
  }

  /** The base entries (helpers: one look-up at a time keeps the proofs small). */
  lemma BaseNamespace(q: Request)
    ensures BaseParameters(q)["namespace"] == Str(EscapeBackslashes(q.namespace))
  {
  }

  lemma BaseBundleAnswers(q: Request)
    ensures var p := BaseParameters(q);
            && p["bundle_name"] == Str(q.bundleName)
            && p["module_type"] == Str(q.moduleType)
            && p["package_license"] == Str(q.packageLicense)
            && p["package_website"] == Str(q.packageWebsite)
            && p["package_description"] == Str(q.packageDescription)
  {
  }

  lemma BaseAuthorAnswers(q: Request)
    ensures var p := BaseParameters(q);
            && p["vendor_name"] == Str(q.vendorName)
            && p["author_name"] == Str(q.authorName)
            && p["author_email"] == Str(q.authorEmail)
            && p["package_name"] == Str(q.packageName)
            && p["gen_routing"] == Str(q.routing)
  {
  }

  lemma BaseModules(q: Request)
    ensures BaseParameters(q)["modules"] == ModulesValue(q.modules)
  {
  }

  /** `route_prefix` is added beside the base entries and changes none of them. */
  lemma BundleKeepsBase(q: Request, k: string)
    requires k in BaseKeys
    ensures k in BundleParameters(q) && BundleParameters(q)[k] == BaseParameters(q)[k]
  {
    assert k != "route_prefix";
  }

  /** The escaped namespace parameter reads back as the namespace (lines 44, 47). */
  lemma NamespaceParameter(q: Request)
    ensures var p := BundleParameters(q);
            p["namespace"].Str? && CollapseBackslashes(p["namespace"].s) == q.namespace
  {
    BaseNamespace(q);
    BundleKeepsBase(q, "namespace");
    CollapseEscape(q.namespace);
  }

  /** The answers about the bundle are passed to the templates as typed (lines 48-49, 51-52, 57). */
  lemma BundleAnswerParameters(q: Request)
    ensures var p := BundleParameters(q);
            && p["bundle_name"] == Str(q.bundleName)
            && p["module_type"] == Str(q.moduleType)
            && p["package_license"] == Str(q.packageLicense)
            && p["package_website"] == Str(q.packageWebsite)
            && p["package_description"] == Str(q.packageDescription)
  {
    BaseBundleAnswers(q);
    BundleKeepsBase(q, "bundle_name");
    BundleKeepsBase(q, "module_type");
    BundleKeepsBase(q, "package_license");
    BundleKeepsBase(q, "package_website");
    BundleKeepsBase(q, "package_description");
  }

  /** The answers about the people and the package are passed as typed (lines 53-56, 58). */
  lemma AuthorAnswerParameters(q: Request)
    ensures var p := BundleParameters(q);
            && p["vendor_name"] == Str(q.vendorName)
            && p["author_name"] == Str(q.authorName)
            && p["author_email"] == Str(q.authorEmail)
            && p["package_name"] == Str(q.packageName)
            && p["gen_routing"] == Str(q.routing)
  {
    BaseAuthorAnswers(q);
    BundleKeepsBase(q, "vendor_name");
    BundleKeepsBase(q, "author_name");
    BundleKeepsBase(q, "author_email");
    BundleKeepsBase(q, "package_name");
    BundleKeepsBase(q, "gen_routing");
  }

  /** The `modules` parameter lists the module records in order (line 50). */
  lemma ModulesParameter(q: Request)
    ensures var p := BundleParameters(q);
            && p["modules"].List? && |p["modules"].items| == |q.modules|
            && forall i :: 0 <= i < |q.modules| ==> p["modules"].items[i] == Dict(q.modules[i])
  {
    BaseModules(q);
    BundleKeepsBase(q, "modules");
  }

  /**
   * With routing, `route_prefix` is the package name with `/` and `-` turned
   * into `_`, position by position (lines 61-63).
   */
  lemma RoutePrefixParameter(q: Request)
    requires q.routing == "yes"
    ensures var p := BundleParameters(q);
            && p["route_prefix"].Str?
            && |p["route_prefix"].s| == |q.packageName|
            && '/' !in p["route_prefix"].s && '-' !in p["route_prefix"].s
            && forall i :: 0 <= i < |q.packageName| ==>
                 p["route_prefix"].s[i] == (if q.packageName[i] in "/-" then '_' else q.packageName[i])
  {
  }

  /**
   * In every per-module render the module's own entries win over the bundle
   * parameters (`array_merge($parameters, $module)`), and the bundle
   * parameters fill in the rest.
   */
  lemma ModuleRendersMerge(root: string, moduleType: string, params: Params, m: Module)
    ensures forall a :: a in ModuleActions(root, moduleType, params, m) && a.Render? ==>
              && a.parameters.Keys == params.Keys + m.Keys
              && (forall k :: k in m ==> a.parameters[k] == m[k])
              && (forall k :: k in params && k !in m ==> a.parameters[k] == params[k])
  {
  }
}
