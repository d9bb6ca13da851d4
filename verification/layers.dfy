/** The import-pattern lint rule: layered targets and `/~` templates are
    expanded, layer by layer, into the patterns a file may import. */
module Layers {
  import opened Sequences

  datatype Layer = Common | Worker | Browser | ElectronBrowser | Node | ElectronUtility | ElectronMain

  datatype When = HasBrowser | HasNode | HasElectron | Test

  datatype Restriction =
    | Plain(pattern: string)
    | Conditional(pattern: string, when: Option<When>)

  datatype RawOption =
    | Target(target: string, layer: Option<Layer>, test: bool, restrictions: seq<Restriction>)
    | Allow(when: When, allow: seq<string>)

  /** An expanded pattern. `Segment` is a base directory, perhaps its `test`
      directory, then one of several layers and anything below; the braces that
      list the layers are read as alternatives. */
  datatype Pattern =
    | Glob(text: string)
    | Segment(base: string, test: bool, layers: seq<Layer>)

  datatype Config = Config(target: Pattern, restrictions: seq<Pattern>)

  datatype LayerRule = LayerRule(layer: Layer, deps: seq<Layer>, isBrowser: bool, isNode: bool, isElectron: bool)

  function RuleOf(layer: Layer): LayerRule {
    match layer
    case Common => LayerRule(Common, [Common], false, false, false)
    case Worker => LayerRule(Worker, [Common, Worker], false, false, false)
    case Browser => LayerRule(Browser, [Common, Browser], true, false, false)
    case ElectronBrowser => LayerRule(ElectronBrowser, [Common, Browser, ElectronBrowser], true, false, false)
    case Node => LayerRule(Node, [Common, Node], false, true, false)
    case ElectronUtility => LayerRule(ElectronUtility, [Common, Node, ElectronUtility], false, true, true)
    case ElectronMain => LayerRule(ElectronMain, [Common, Node, ElectronUtility, ElectronMain], false, true, true)
  }

  const LAYERS: seq<Layer> := [Common, Worker, Browser, ElectronBrowser, Node, ElectronUtility, ElectronMain]

  function Name(layer: Layer): string {
    match layer
    case Common => "common"
    case Worker => "worker"
    case Browser => "browser"
    case ElectronBrowser => "electron-browser"
    case Node => "node"
    case ElectronUtility => "electron-utility"
    case ElectronMain => "electron-main"
  }

  // ---------- what a pattern allows ----------

  /** The glob engine on brace-free layer segments: does a path match a text? */
  type Globber = (string, string) -> bool

  function Written(base: string, test: bool, layer: Layer): string {
    base + (if test then "/test/" else "/") + Name(layer) + "/**"
  }

  predicate Matches(glob: Globber, path: string, p: Pattern) {
    match p
    case Glob(text) => glob(path, text)
    case Segment(base, test, layers) => exists l :: l in layers && glob(path, Written(base, test, l))
  }

  predicate Allows(glob: Globber, path: string, patterns: seq<Pattern>) {
    exists p :: p in patterns && Matches(glob, path, p)
  }

  // ---------- expansion ----------

  predicate EndsWithTilde(s: string) {
    |s| >= 2 && s[|s| - 2..] == "/~"
  }

  function Expanded(pattern: string, test: bool, layers: seq<Layer>): Pattern {
    if EndsWithTilde(pattern) then Segment(pattern[..|pattern| - 2], test, layers) else Glob(pattern)
  }

  predicate Applies(rule: LayerRule, when: Option<When>) {
    match when
    case None => true
    case Some(HasBrowser) => rule.isBrowser
    case Some(HasNode) => rule.isNode
    case Some(HasElectron) => rule.isElectron
    case Some(Test) => false
  }

  /** The patterns always allowed under each condition. */
  datatype Allowances = Allowances(browser: seq<string>, node: seq<string>, electron: seq<string>, test: seq<string>)

  function Globs(texts: seq<string>): (r: seq<Pattern>)
    ensures forall t :: t in texts ==> Glob(t) in r
    ensures forall p :: p in r ==> p.Glob? && p.text in texts
  {
    if texts == [] then [] else Globs(texts[..|texts| - 1]) + [Glob(texts[|texts| - 1])]
  }

  function GrantedIf(before: seq<Pattern>, condition: bool, texts: seq<string>): seq<Pattern> {
    if condition then before + Globs(texts) else before
  }

  function Granted(rule: LayerRule, allow: Allowances): seq<Pattern> {
    GrantedIf(GrantedIf(GrantedIf([], rule.isBrowser, allow.browser), rule.isNode, allow.node),
              rule.isElectron, allow.electron)
  }

  /** What the restrictions of an option add for a layer, to the production
      config or to the test config. */
  function Contributed(rule: LayerRule, raw: seq<Restriction>, test: bool): seq<Pattern> {
    if raw == [] then [] else
      Contributed(rule, raw[..|raw| - 1], test) + Contribution(rule, raw[|raw| - 1], test)
  }

  function Condition(r: Restriction): Option<When> {
    if r.Plain? then None else r.when
  }

  function Contribution(rule: LayerRule, r: Restriction, test: bool): seq<Pattern> {
    if Applies(rule, Condition(r)) then [Expanded(r.pattern, test, rule.deps)]
    else if test && Condition(r) == Some(Test) then
      [Expanded(r.pattern, false, rule.deps), Expanded(r.pattern, true, rule.deps)]
    else []
  }

  function Generated(rule: LayerRule, allow: Allowances, target: string, raw: seq<Restriction>, test: bool): Config {
    var restrictions := Granted(rule, allow) + Contributed(rule, raw, false);
    Config(Expanded(target, test, [rule.layer]),
           if test then Globs(allow.test) + Contributed(rule, raw, true) + restrictions else restrictions)
  }

  lemma ContributedStarts(rule: LayerRule, raw: seq<Restriction>)
    ensures Contributed(rule, raw[..0], false) == [] && Contributed(rule, raw[..0], true) == []
    ensures raw[..|raw|] == raw
  {
  }

  lemma ContributedGrows(rule: LayerRule, raw: seq<Restriction>, i: nat, before: seq<Pattern>, test: bool)
    requires i < |raw|
    ensures before + Contributed(rule, raw[..i + 1], test) ==
            var before' := before + Contributed(rule, raw[..i], test);
            var r := raw[i];
            if Applies(rule, Condition(r)) then before' + [Expanded(r.pattern, test, rule.deps)]
            else if test && Condition(r) == Some(Test) then
              before' + [Expanded(r.pattern, false, rule.deps), Expanded(r.pattern, true, rule.deps)]
            else before'
  {
    assert raw[..i + 1][..i] == raw[..i];
    assert before + Contributed(rule, raw[..i + 1], test) ==
           before + Contributed(rule, raw[..i], test) + Contribution(rule, raw[i], test);
  }

  method ExpandRestrictions(rule: LayerRule, raw: seq<Restriction>, granted: seq<Pattern>, tests: seq<Pattern>)
    returns (restrictions: seq<Pattern>, testRestrictions: seq<Pattern>)
    ensures restrictions == granted + Contributed(rule, raw, false)
    ensures testRestrictions == tests + Contributed(rule, raw, true)
  {
    hide Contributed, Expanded, Applies;
    ContributedStarts(rule, raw);
    restrictions, testRestrictions := granted, tests;
    for i := 0 to |raw|
      invariant restrictions == granted + Contributed(rule, raw[..i], false)
      invariant testRestrictions == tests + Contributed(rule, raw[..i], true)
    {
      ContributedGrows(rule, raw, i, granted, false);
      ContributedGrows(rule, raw, i, tests, true);
      if Applies(rule, Condition(raw[i])) {
        restrictions := restrictions + [Expanded(raw[i].pattern, false, rule.deps)];
        testRestrictions := testRestrictions + [Expanded(raw[i].pattern, true, rule.deps)];
      } else if Condition(raw[i]) == Some(Test) {
        testRestrictions := testRestrictions +
          [Expanded(raw[i].pattern, false, rule.deps), Expanded(raw[i].pattern, true, rule.deps)];
      }
    }
  }

  method GenerateConfig(rule: LayerRule, allow: Allowances, target: string, rawRestrictions: seq<Restriction>)
    returns (config: Config, testConfig: Config)
    ensures config == Generated(rule, allow, target, rawRestrictions, false)
    ensures testConfig == Generated(rule, allow, target, rawRestrictions, true)
  {
    var restrictions: seq<Pattern> := [];
    var testRestrictions := Globs(allow.test);
    if rule.isBrowser {
      restrictions := restrictions + Globs(allow.browser);
    }
    if rule.isNode {
      restrictions := restrictions + Globs(allow.node);
    }
    if rule.isElectron {
      restrictions := restrictions + Globs(allow.electron);
    }
    assert restrictions == Granted(rule, allow);
    hide Granted, Globs, Contributed, Applies, Expanded;
    restrictions, testRestrictions := ExpandRestrictions(rule, rawRestrictions, restrictions, testRestrictions);
    testRestrictions := testRestrictions + restrictions;
    return Config(Expanded(target, false, [rule.layer]), restrictions),
           Config(Expanded(target, true, [rule.layer]), testRestrictions);
  }

  // ---------- the option list ----------

  function Granting(options: seq<RawOption>, when: When): seq<string> {
    if options == [] then [] else
      var last := options[|options| - 1];
      if last.Allow? && last.when == when then last.allow else Granting(options[..|options| - 1], when)
  }

  function AllowancesOf(options: seq<RawOption>): Allowances {
    Allowances(Granting(options, HasBrowser), Granting(options, HasNode),
               Granting(options, HasElectron), Granting(options, Test))
  }

  predicate IsVS(target: string) {
    |target| >= 7 && target[..7] == "src/vs/"
  }

  function RawOf(option: RawOption): seq<Restriction>
    requires option.Target?
  {
    option.restrictions +
    if IsVS(option.target) then [Plain("vs/nls.js"), Plain("vs/amdX.js")] else []
  }

  /** Production and test config of every layer from the `i`-th on. */
  function AllLayers(allow: Allowances, target: string, raw: seq<Restriction>, i: nat): seq<Config>
    requires i <= |LAYERS|
  {
    if i == 0 then [] else
      AllLayers(allow, target, raw, i - 1) +
      [Generated(RuleOf(LAYERS[i - 1]), allow, target, raw, false),
       Generated(RuleOf(LAYERS[i - 1]), allow, target, raw, true)]
  }

  function Plains(raw: seq<Restriction>): seq<Pattern> {
    if raw == [] then [] else
      var last := raw[|raw| - 1];
      Plains(raw[..|raw| - 1]) + if last.Plain? then [Glob(last.pattern)] else []
  }

  function OptionConfigs(allow: Allowances, option: RawOption): seq<Config> {
    if option.Allow? then []
    else if IsVS(option.target) && option.layer.Some? then
      [Generated(RuleOf(option.layer.value), allow, option.target, RawOf(option), option.test)]
    else if IsVS(option.target) && EndsWithTilde(option.target) then
      AllLayers(allow, option.target, RawOf(option), |LAYERS|)
    else [Config(Glob(option.target), Plains(RawOf(option)))]
  }

  function ConfigsFrom(allow: Allowances, options: seq<RawOption>): seq<Config> {
    if options == [] then [] else
      ConfigsFrom(allow, options[..|options| - 1]) + OptionConfigs(allow, options[|options| - 1])
  }

  function Configs(options: seq<RawOption>): seq<Config> {
    ConfigsFrom(AllowancesOf(options), options)
  }

  lemma GrantingGrows(options: seq<RawOption>, i: nat, when: When)
    requires i < |options|
    ensures Granting(options[..i + 1], when) ==
            if options[i].Allow? && options[i].when == when then options[i].allow else Granting(options[..i], when)
  {
    assert options[..i + 1][..i] == options[..i];
  }

  /** The rule's methods, with the cache of already processed option lists. */
  class ImportPatterns {
    var optionsCache: map<seq<RawOption>, seq<Config>>

    ghost predicate Valid()
      reads this
    {
      forall o :: o in optionsCache ==> optionsCache[o] == Configs(o)
    }

    constructor ()
      ensures Valid()
    {
      optionsCache := map[];
    }

    method CollectAllowances(options: seq<RawOption>) returns (allow: Allowances)
      ensures allow == AllowancesOf(options)
    {
      allow := Allowances([], [], [], []);
      for i := 0 to |options|
        invariant allow == AllowancesOf(options[..i])
      {
        GrantingGrows(options, i, HasBrowser);
        GrantingGrows(options, i, HasNode);
        GrantingGrows(options, i, HasElectron);
        GrantingGrows(options, i, Test);
        if options[i].Allow? {
          match options[i].when {
            case HasBrowser => allow := allow.(browser := options[i].allow);
            case HasNode => allow := allow.(node := options[i].allow);
            case HasElectron => allow := allow.(electron := options[i].allow);
            case Test => allow := allow.(test := options[i].allow);
          }
        }
      }
      assert options[..|options|] == options;
    }

    method GenerateAllLayers(allow: Allowances, target: string, raw: seq<Restriction>) returns (configs: seq<Config>)
      ensures configs == AllLayers(allow, target, raw, |LAYERS|)
    {
      configs := [];
      for i := 0 to |LAYERS|
        invariant configs == AllLayers(allow, target, raw, i)
      {
        var config, testConfig := GenerateConfig(RuleOf(LAYERS[i]), allow, target, raw);
        configs := configs + [config, testConfig];
      }
    }

    method ProcessOption(allow: Allowances, option: RawOption) returns (configs: seq<Config>)
      ensures configs == OptionConfigs(allow, option)
    {
      if option.Allow? {
        return [];
      }
      var restrictions := RawOf(option);
      if IsVS(option.target) && option.layer.Some? {
        var config, testConfig := GenerateConfig(RuleOf(option.layer.value), allow, option.target, restrictions);
        return [if option.test then testConfig else config];
      } else if IsVS(option.target) && EndsWithTilde(option.target) {
        configs := GenerateAllLayers(allow, option.target, restrictions);
      } else {
        return [Config(Glob(option.target), Plains(restrictions))];
      }
    }

    method ProcessOptions(options: seq<RawOption>) returns (configs: seq<Config>)
      requires Valid()
      modifies this
      ensures Valid() && configs == Configs(options)
    {
      if options in optionsCache {
        return optionsCache[options];
      }
      var allow := CollectAllowances(options);
      configs := [];
      for i := 0 to |options|
        invariant configs == ConfigsFrom(allow, options[..i])
        invariant Valid() && optionsCache == old(optionsCache)
      {
        assert options[..i + 1][..i] == options[..i];
        var more := ProcessOption(allow, options[i]);
        configs := configs + more;
      }
      assert options[..|options|] == options;
      optionsCache := optionsCache[options := configs];
    }

    /** The first config whose target matches the file; without one the file
        itself is reported. */
    method ConfigFor(glob: Globber, file: string, configs: seq<Config>) returns (config: Option<Config>)
      ensures config.None? <==> forall i :: 0 <= i < |configs| ==> !Matches(glob, file, configs[i].target)
      ensures config.Some? ==> exists i :: IsFirstFor(glob, file, configs, i) && config.value == configs[i]
    {
      for i := 0 to |configs|
        invariant forall j :: 0 <= j < i ==> !Matches(glob, file, configs[j].target)
      {
        if Matches(glob, file, configs[i].target) {
          assert IsFirstFor(glob, file, configs, i);
          return Some(configs[i]);
        }
      }
      config := None;
    }

    /** What is reported of one import of a file. `join` resolves a relative
        import against the file's directory. */
    method CheckImport(glob: Globber, config: Config, file: string, importPath: string, join: (string,
        string) -> string)
      returns (reports: set<Report>)
      ensures BadExtension in reports <==>
              IsVS(file) && IsRelative(importPath) && !EndsWith(importPath, ".js") && !EndsWith(importPath, ".css")
      ensures BadAbsolute in reports <==> IsVS(file) && StartsWith(importPath, "vs/")
      ensures BadImport in reports <==> !Allows(glob, Resolved(file, importPath, join), config.restrictions)
    {
      reports := {};
      if IsVS(file) {
        if IsRelative(importPath) && !EndsWith(importPath, ".js") && !EndsWith(importPath, ".css") {
          reports := reports + {BadExtension};
        }
        if StartsWith(importPath, "vs/") {
          reports := reports + {BadAbsolute};
        }
      }
      var path := importPath;
      if IsRelative(path) {
        path := join(file, path);
        if IsVS(path) {
          path := path[|"src/"|..];
        }
      }
      var matched := false;
      for i := 0 to |config.restrictions|
        invariant !matched
        invariant forall j :: 0 <= j < i ==> !Matches(glob, path, config.restrictions[j])
      {
        if Matches(glob, path, config.restrictions[i]) {
          matched := true;
          break;
        }
      }
      if !matched {
        reports := reports + {BadImport};
      }
    }
  }

  datatype Report = BadExtension | BadAbsolute | BadImport

  predicate IsRelative(path: string) {
    path != "" && path[0] == '.'
  }

  predicate StartsWith(s: string, prefix: string) {
    |prefix| <= |s| && s[..|prefix|] == prefix
  }

  predicate EndsWith(s: string, suffix: string) {
    |suffix| <= |s| && s[|s| - |suffix|..] == suffix
  }

  /** The path an import is judged by: relative ones are resolved, and under
      src/vs/ taken from the base directory. */
  function Resolved(file: string, importPath: string, join: (string, string) -> string): string {
    var path := join(file, importPath);
    if !IsRelative(importPath) then importPath
    else if IsVS(path) then path[|"src/"|..]
    else path
  }

  predicate IsFirstFor(glob: Globber, file: string, configs: seq<Config>, i: int) {
    0 <= i < |configs| && Matches(glob, file, configs[i].target) &&
    forall j :: 0 <= j < i ==> !Matches(glob, file, configs[j].target)
  }

  // ---------- what the generated configs allow ----------

  predicate GlobsAny(glob: Globber, path: string, texts: seq<string>) {
    exists t :: t in texts && glob(path, t)
  }

  predicate Grants(glob: Globber, path: string, rule: LayerRule, allow: Allowances) {
    (rule.isBrowser && GlobsAny(glob, path, allow.browser)) ||
    (rule.isNode && GlobsAny(glob, path, allow.node)) ||
    (rule.isElectron && GlobsAny(glob, path, allow.electron))
  }

  /** A restriction lets a production file of the layer import a path. */
  predicate Permits(glob: Globber, path: string, rule: LayerRule, r: Restriction, test: bool) {
    Matches(glob, path, Expanded(r.pattern, test, rule.deps))
  }

  /** Exactly the imports a config allows, in terms of the option's parts. */
  predicate Allowed(glob: Globber, path: string, rule: LayerRule, allow: Allowances, raw: seq<Restriction>,
      test: bool) {
    Grants(glob, path, rule, allow) ||
    (exists r :: r in raw && Applies(rule, Condition(r)) && Permits(glob, path, rule, r, false)) ||
    (test && (GlobsAny(glob, path, allow.test) ||
              exists r :: r in raw && (Applies(rule, Condition(r)) || Condition(r) == Some(Test)) &&
                          (Permits(glob, path, rule, r, true) ||
                           (Condition(r) == Some(Test) && Permits(glob, path, rule, r, false)))))
  }

  lemma AllowsConcat(glob: Globber, path: string, a: seq<Pattern>, b: seq<Pattern>)
    ensures Allows(glob, path, a + b) <==> Allows(glob, path, a) || Allows(glob, path, b)
  {
    if p :| p in a && Matches(glob, path, p) {
      assert p in a + b;
    }
    if p :| p in b && Matches(glob, path, p) {
      assert p in a + b;
    }
  }

  lemma GlobsAllow(glob: Globber, path: string, texts: seq<string>)
    ensures Allows(glob, path, Globs(texts)) <==> GlobsAny(glob, path, texts)
  {
    if t :| t in texts && glob(path, t) {
      assert Matches(glob, path, Glob(t));
    }
  }

  lemma GrantedAllow(glob: Globber, path: string, rule: LayerRule, allow: Allowances)
    ensures Allows(glob, path, Granted(rule, allow)) <==> Grants(glob, path, rule, allow)
  {
    var browser := GrantedIf([], rule.isBrowser, allow.browser);
    var node := GrantedIf(browser, rule.isNode, allow.node);
    AllowsConcat(glob, path, [], Globs(allow.browser));
    AllowsConcat(glob, path, browser, Globs(allow.node));
    AllowsConcat(glob, path, node, Globs(allow.electron));
    GlobsAllow(glob, path, allow.browser);
    GlobsAllow(glob, path, allow.node);
    GlobsAllow(glob, path, allow.electron);
  }

  predicate Contributes(glob: Globber, path: string, rule: LayerRule, r: Restriction, test: bool) {
    if Applies(rule, Condition(r)) then Permits(glob, path, rule, r, test)
    else test && Condition(r) == Some(Test) &&
         (Permits(glob, path, rule, r, false) || Permits(glob, path, rule, r, true))
  }

  lemma AllowsOne(glob: Globber, path: string, p: Pattern)
    ensures Allows(glob, path, [p]) <==> Matches(glob, path, p)
  {
    hide Matches;
    assert p in [p];
  }

  lemma ContributionAllows(glob: Globber, path: string, rule: LayerRule, r: Restriction, test: bool)
    ensures Allows(glob, path, Contribution(rule, r, test)) <==> Contributes(glob, path, rule, r, test)
  {
    var off, on := Expanded(r.pattern, false, rule.deps), Expanded(r.pattern, true, rule.deps);
    var applies := Applies(rule, Condition(r));
    assert Contribution(rule, r, test) ==
           if applies then [if test then on else off]
           else if test && Condition(r) == Some(Test) then [off] + [on] else [];
    hide Matches, Expanded, Applies, Contribution, Allows;
    AllowsOne(glob, path, off);
    AllowsOne(glob, path, on);
    AllowsConcat(glob, path, [off], [on]);
    AllowsNothing(glob, path);
  }

  lemma AllowsNothing(glob: Globber, path: string)
    ensures !Allows(glob, path, [])
  {
  }

  lemma {:induction false} ContributedAllow(glob: Globber, path: string, rule: LayerRule, raw: seq<Restriction>,
      test: bool)
    ensures Allows(glob, path, Contributed(rule, raw, test)) <==>
            exists r :: r in raw && Contributes(glob, path, rule, r, test)
  {
    if raw != [] {
      var init, last := raw[..|raw| - 1], raw[|raw| - 1];
      assert raw == init + [last];
      ContributedAllow(glob, path, rule, init, test);
      AllowsConcat(glob, path, Contributed(rule, init, test), Contribution(rule, last, test));
      ContributionAllows(glob, path, rule, last, test);
    }
  }

  /** A generated config allows a path exactly when some allowance or some
      restriction of the option lets the layer import it. */
  lemma GeneratedAllows(glob: Globber, path: string, rule: LayerRule, allow: Allowances, target: string,
      raw: seq<Restriction>, test: bool)
    ensures Allows(glob, path, Generated(rule, allow, target, raw, test).restrictions) <==>
            Allowed(glob, path, rule, allow, raw, test)
  {
    GrantedAllow(glob, path, rule, allow);
    ContributedAllow(glob, path, rule, raw, false);
    AllowsConcat(glob, path, Granted(rule, allow), Contributed(rule, raw, false));
    if test {
      GlobsAllow(glob, path, allow.test);
      ContributedAllow(glob, path, rule, raw, true);
      AllowsConcat(glob, path, Globs(allow.test), Contributed(rule, raw, true));
      AllowsConcat(glob, path, Globs(allow.test) + Contributed(rule, raw, true),
                   Granted(rule, allow) + Contributed(rule, raw, false));
    }
  }

  // ---------- layering ----------

  ghost predicate Within(a: LayerRule, b: LayerRule) {
    forall l :: l in a.deps ==> l in b.deps
  }

  /** A layer that may depend on all another layer depends on runs wherever the
      other runs. */
  lemma PlacesFollowDeps(a: Layer, b: Layer)
    requires Within(RuleOf(a), RuleOf(b))
    ensures RuleOf(a).isBrowser ==> RuleOf(b).isBrowser
    ensures RuleOf(a).isNode ==> RuleOf(b).isNode
    ensures RuleOf(a).isElectron ==> RuleOf(b).isElectron
  {
    assert a in RuleOf(a).deps;
  }

  lemma WiderMatches(glob: Globber, path: string, a: Layer, b: Layer, r: Restriction, test: bool)
    requires Within(RuleOf(a), RuleOf(b)) && Permits(glob, path, RuleOf(a), r, test)
    ensures Permits(glob, path, RuleOf(b), r, test)
  {
    if EndsWithTilde(r.pattern) {
      var l :| l in RuleOf(a).deps && glob(path, Written(r.pattern[..|r.pattern| - 2], test, l));
      assert l in RuleOf(b).deps;
    }
  }

  /** Whatever a layer's config allows, the same option's config for a layer
      with more dependencies allows too, in production and in tests. */
  lemma DependenciesWiden(glob: Globber, path: string, a: Layer, b: Layer, allow: Allowances, raw: seq<Restriction>,
      target: string, test: bool)
    requires Within(RuleOf(a), RuleOf(b))
    requires Allows(glob, path, Generated(RuleOf(a), allow, target, raw, test).restrictions)
    ensures Allows(glob, path, Generated(RuleOf(b), allow, target, raw, test).restrictions)
  {
    GeneratedAllows(glob, path, RuleOf(a), allow, target, raw, test);
    GeneratedAllows(glob, path, RuleOf(b), allow, target, raw, test);
    AllowedWidens(glob, path, a, b, allow, raw, test);
  }

  lemma AllowedWidens(glob: Globber, path: string, a: Layer, b: Layer, allow: Allowances, raw: seq<Restriction>,
      test: bool)
    requires Within(RuleOf(a), RuleOf(b)) && Allowed(glob, path, RuleOf(a), allow, raw, test)
    ensures Allowed(glob, path, RuleOf(b), allow, raw, test)
  {
    PlacesFollowDeps(a, b);
    forall r, t: bool | Permits(glob, path, RuleOf(a), r, t) ensures Permits(glob, path, RuleOf(b), r, t) {
      WiderMatches(glob, path, a, b, r, t);
    }
    hide RuleOf, Permits;
    var ra, rb := RuleOf(a), RuleOf(b);
    assert forall r :: Applies(ra, Condition(r)) ==> Applies(rb, Condition(r));
  }

  const NONE := Allowances([], [], [], [])

  lemma TemplateAlone(glob: Globber, path: string, rule: LayerRule, target: string, template: string)
    ensures Allows(glob, path, Generated(rule, NONE, target, [Plain(template)], false).restrictions) <==>
            Matches(glob, path, Expanded(template, false, rule.deps))
  {
    GeneratedAllows(glob, path, rule, NONE, target, [Plain(template)], false);
    hide Generated, Allows, Matches, Expanded;
    var r := Plain(template);
    assert r in [r] && Applies(rule, Condition(r));
  }

  /** Without the dependencies it fails for some option: the one that allows
      a directory in every layer the importer may depend on. */
  lemma MissingDependencyShows(a: Layer, b: Layer) returns (raw: seq<Restriction>, glob: Globber, path: string)
    requires !Within(RuleOf(a), RuleOf(b))
    ensures Allows(glob, path, Generated(RuleOf(a), NONE, "src/vs/a/~", raw, false).restrictions)
    ensures !Allows(glob, path, Generated(RuleOf(b), NONE, "src/vs/a/~", raw, false).restrictions)
  {
    var d :| d in RuleOf(a).deps && d !in RuleOf(b).deps;
    raw := [Plain("/~")];
    path := Written("", false, d);
    glob := (p: string, text: string) => p == text;
    TemplateAlone(glob, path, RuleOf(a), "src/vs/a/~", "/~");
    TemplateAlone(glob, path, RuleOf(b), "src/vs/a/~", "/~");
    LayerDirectory(glob, RuleOf(a), d);
    LayerDirectory(glob, RuleOf(b), d);
    hide *;
  }

  /** The bare template matches the directory of a layer exactly in the layers
      that depend on it. */
  lemma LayerDirectory(glob: Globber, rule: LayerRule, d: Layer)
    requires forall p, text :: glob(p, text) <==> p == text
    ensures Matches(glob, Written("", false, d), Expanded("/~", false, rule.deps)) <==> d in rule.deps
  {
    assert "/~"[..0] == "";
    assert Expanded("/~", false, rule.deps) == Segment("", false, rule.deps);
    hide Name, Written;
    forall l | l in rule.deps && l != d ensures Written("", false, l) != Written("", false, d) {
      NamesDiffer(l, d);
    }
  }

  lemma NamesDiffer(a: Layer, b: Layer)
    requires a != b
    ensures Written("", false, a) != Written("", false, b)
  {
    var x, y := Written("", false, a), Written("", false, b);
    assert x[1..|x| - 3] == Name(a) && y[1..|y| - 3] == Name(b);
  }

  /** Layer `b` may import whatever layer `a` may, whatever the options say. */
  ghost predicate ImportsAtLeast(b: Layer, a: Layer) {
    forall glob: Globber, path, allow, target, raw, test ::
      Allows(glob, path, Generated(RuleOf(a), allow, target, raw, test).restrictions) ==>
        Allows(glob, path, Generated(RuleOf(b), allow, target, raw, test).restrictions)
  }

  /** The dependency table is exactly what decides who may import what. */
  lemma LayeringExactly(a: Layer, b: Layer)
    ensures ImportsAtLeast(b, a) <==> Within(RuleOf(a), RuleOf(b))
  {
    if Within(RuleOf(a), RuleOf(b)) {
      forall glob: Globber, path, allow, target, raw, test |
        Allows(glob, path, Generated(RuleOf(a), allow, target, raw, test).restrictions)
        ensures Allows(glob, path, Generated(RuleOf(b), allow, target, raw, test).restrictions) {
        DependenciesWiden(glob, path, a, b, allow, raw, target, test);
      }
    } else {
      var raw, glob, path := MissingDependencyShows(a, b);
    }
  }

  /** A production config allows no more than its test twin. */
  lemma TestTwinIsWider(glob: Globber, path: string, rule: LayerRule, allow: Allowances, raw: seq<Restriction>,
      target: string)
    requires Allows(glob, path, Generated(rule, allow, target, raw, false).restrictions)
    ensures Allows(glob, path, Generated(rule, allow, target, raw, true).restrictions)
  {
    GeneratedAllows(glob, path, rule, allow, target, raw, false);
    GeneratedAllows(glob, path, rule, allow, target, raw, true);
  }

  /** The configs of a layered option are the generated ones, a pair a layer. */
  lemma {:induction false} LayeredConfigs(options: seq<RawOption>, k: nat, layer: Layer, test: bool)
    requires k < |options| && options[k].Target? && IsVS(options[k].target) && EndsWithTilde(options[k].target)
    requires options[k].layer == None
    ensures Generated(RuleOf(layer), AllowancesOf(options), options[k].target, RawOf(options[k]), test)
            in Configs(options)
  {
    hide Generated, RuleOf, AllowancesOf;
    var allow, o := AllowancesOf(options), options[k];
    ConfigsOfOption(allow, options, k);
    var i := match layer
      case Common => 0 case Worker => 1 case Browser => 2 case ElectronBrowser => 3
      case Node => 4 case ElectronUtility => 5 case ElectronMain => 6;
    assert LAYERS[i] == layer;
    InAllLayers(allow, o.target, RawOf(o), i, |LAYERS|, test);
  }

  lemma {:induction false} InAllLayers(allow: Allowances, target: string, raw: seq<Restriction>, i: nat, n: nat,
      test: bool)
    requires i < n <= |LAYERS|
    ensures Generated(RuleOf(LAYERS[i]), allow, target, raw, test) in AllLayers(allow, target, raw, n)
  {
    hide Generated, RuleOf;
    if i < n - 1 {
      InAllLayers(allow, target, raw, i, n - 1, test);
    }
  }

  lemma {:induction false} ConfigsOfOption(allow: Allowances, options: seq<RawOption>, k: nat)
    requires k < |options|
    ensures forall c :: c in OptionConfigs(allow, options[k]) ==> c in ConfigsFrom(allow, options)
  {
    if k < |options| - 1 {
      ConfigsOfOption(allow, options[..|options| - 1], k);
    }
  }

  // ---------- the tables, spelled out ----------

  /** Who may import whatever whom may: everybody what `common` may, and otherwise
      along browser, electron-browser and node, electron-utility, electron-main. */
  lemma WhoImportsWhat(a: Layer, b: Layer)
    ensures ImportsAtLeast(b, a) <==>
            a == b || a == Common || (a == Browser && b == ElectronBrowser) ||
            (a == Node && b in {ElectronUtility, ElectronMain}) || (a == ElectronUtility && b == ElectronMain)
  {
    LayeringExactly(a, b);
    assert a in RuleOf(a).deps;
    assert Common in RuleOf(b).deps;
  }

  /** The layer's config for an option without restrictions allows the path. */
  predicate LayerGrants(glob: Globber, path: string, layer: Layer, allow: Allowances, target: string, test: bool) {
    Allows(glob, path, Generated(RuleOf(layer), allow, target, [], test).restrictions)
  }

  lemma LayerGrantsAllowed(glob: Globber, path: string, layer: Layer, allow: Allowances, target: string, test: bool)
    ensures LayerGrants(glob, path, layer, allow, target, test) <==>
            Grants(glob, path, RuleOf(layer), allow) || (test && GlobsAny(glob, path, allow.test))
  {
    GeneratedAllows(glob, path, RuleOf(layer), allow, target, [], test);
  }

  lemma OneGlob(glob: Globber, path: string, text: string)
    ensures GlobsAny(glob, path, [text]) <==> glob(path, text)
    ensures !GlobsAny(glob, path, [])
  {
    assert text in [text];
  }

  /** Where the allowances of a condition count: browser and electron-browser; node
      and the two electron layers over it; those two alone; tests of any layer. */
  lemma WhereGranted(glob: Globber, path: string, layer: Layer, target: string, text: string, test: bool)
    ensures LayerGrants(glob, path, layer, Allowances([text], [], [], []), target, test) <==>
            glob(path, text) && layer in {Browser, ElectronBrowser}
    ensures LayerGrants(glob, path, layer, Allowances([], [text], [], []), target, test) <==>
            glob(path, text) && layer in {Node, ElectronUtility, ElectronMain}
    ensures LayerGrants(glob, path, layer, Allowances([], [], [text], []), target, test) <==>
            glob(path, text) && layer in {ElectronUtility, ElectronMain}
    ensures LayerGrants(glob, path, layer, Allowances([], [], [], [text]), target, test) <==>
            glob(path, text) && test
  {
    OneGlob(glob, path, text);
    LayerGrantsAllowed(glob, path, layer, Allowances([text], [], [], []), target, test);
    LayerGrantsAllowed(glob, path, layer, Allowances([], [text], [], []), target, test);
    LayerGrantsAllowed(glob, path, layer, Allowances([], [], [text], []), target, test);
    LayerGrantsAllowed(glob, path, layer, Allowances([], [], [], [text]), target, test);
    hide LayerGrants, GlobsAny;
  }

  /** Where a condition holds. */
  predicate Holds(when: Option<When>, layer: Layer, test: bool) {
    match when
    case None => true
    case Some(HasBrowser) => layer in {Browser, ElectronBrowser}
    case Some(HasNode) => layer in {Node, ElectronUtility, ElectronMain}
    case Some(HasElectron) => layer in {ElectronUtility, ElectronMain}
    case Some(Test) => test
  }

  lemma OneRestriction(glob: Globber, path: string, layer: Layer, r: Restriction, target: string, test: bool)
    ensures Allows(glob, path, Generated(RuleOf(layer), NONE, target, [r], test).restrictions) <==>
            Holds(Condition(r), layer, test) &&
            (Permits(glob, path, RuleOf(layer), r, false) || (test && Permits(glob, path, RuleOf(layer), r, true)))
  {
    GeneratedAllows(glob, path, RuleOf(layer), NONE, target, [r], test);
    AppliesWhere(layer, Condition(r), test);
    hide Generated, Allows, Permits, RuleOf, Applies, Holds;
    assert r in [r];
  }

  lemma AppliesWhere(layer: Layer, when: Option<When>, test: bool)
    ensures Holds(when, layer, test) <==> Applies(RuleOf(layer), when) || (test && when == Some(Test))
  {
  }

  lemma TemplatePermits(glob: Globber, path: string, rule: LayerRule, base: string, when: Option<When>, test: bool)
    ensures Permits(glob, path, rule, Conditional(base + "/~", when), test) <==>
            exists l :: l in rule.deps && glob(path, base + (if test then "/test/" else "/") + Name(l) + "/**")
  {
    var text := base + "/~";
    assert text[|text| - 2..] == "/~" && text[..|text| - 2] == base;
    hide Name;
    if l :| l in rule.deps && glob(path, base + (if test then "/test/" else "/") + Name(l) + "/**") {
      assert Written(base, test, l) == base + (if test then "/test/" else "/") + Name(l) + "/**";
    }
  }

  /** A template counts where its condition holds: there it allows the directories
      of the layers the importer depends on, and for tests also those of their
      tests. */
  lemma TemplateAllows(glob: Globber, path: string, layer: Layer, base: string, when: Option<When>, target: string,
      test: bool)
    ensures var raw := [Conditional(base + "/~", when)];
            Allows(glob, path, Generated(RuleOf(layer), NONE, target, raw, test).restrictions) <==>
            Holds(when, layer, test) &&
            ((exists l :: l in RuleOf(layer).deps && glob(path, base + "/" + Name(l) + "/**")) ||
             (test && exists l :: l in RuleOf(layer).deps && glob(path, base + "/test/" + Name(l) + "/**")))
  {
    OneRestriction(glob, path, layer, Conditional(base + "/~", when), target, test);
    TemplatePermits(glob, path, RuleOf(layer), base, when, false);
    TemplatePermits(glob, path, RuleOf(layer), base, when, true);
    hide Generated, Allows, Permits, RuleOf, Holds, Name;
  }

  /** Files under src/vs/ may always import the two generated modules. */
  lemma AlwaysAllowed(glob: Globber, path: string, rule: LayerRule, allow: Allowances, option: RawOption, test: bool)
    requires option.Target? && IsVS(option.target)
    requires glob(path, "vs/nls.js") || glob(path, "vs/amdX.js")
    ensures Allows(glob, path, Generated(rule, allow, option.target, RawOf(option), test).restrictions)
  {
    GeneratedAllows(glob, path, rule, allow, option.target, RawOf(option), test);
    var nls, amd := Plain("vs/nls.js"), Plain("vs/amdX.js");
    assert nls in RawOf(option) && amd in RawOf(option);
    assert !EndsWithTilde("vs/nls.js") && !EndsWithTilde("vs/amdX.js");
    var r := if glob(path, "vs/nls.js") then nls else amd;
    assert Applies(rule, Condition(r)) && Permits(glob, path, rule, r, false);
    hide Generated, Allows;
  }

  lemma OneSegment(glob: Globber, file: string, base: string, test: bool, layer: Layer)
    ensures Matches(glob, file, Segment(base, test, [layer])) <==> glob(file, Written(base, test, layer))
  {
    assert layer in [layer];
  }

  /** An option for one layer gives one config: its files are those of that layer
      under the base directory, or under its test directory if the option says so. */
  lemma SingleLayer(glob: Globber, file: string, allow: Allowances, option: RawOption)
    requires option.Target? && IsVS(option.target) && EndsWithTilde(option.target) && option.layer.Some?
    ensures |OptionConfigs(allow, option)| == 1
    ensures var base := option.target[..|option.target| - 2];
            Matches(glob, file, OptionConfigs(allow, option)[0].target) <==>
            glob(file, base + (if option.test then "/test/" else "/") + Name(option.layer.value) + "/**")
  {
    var layer := option.layer.value;
    assert RuleOf(layer).layer == layer;
    var base := option.target[..|option.target| - 2];
    assert OptionConfigs(allow, option)[0].target == Segment(base, option.test, [layer]);
    hide RuleOf, Name, OptionConfigs;
    OneSegment(glob, file, base, option.test, layer);
  }

  /** Of several rules for one condition the last one counts. */
  lemma {:induction false} LastGranted(options: seq<RawOption>, when: When, k: nat)
    requires k < |options| && options[k].Allow? && options[k].when == when
    requires forall j :: k < j < |options| ==> !(options[j].Allow? && options[j].when == when)
    ensures Granting(options, when) == options[k].allow
  {
    if k < |options| - 1 {
      LastGranted(options[..|options| - 1], when, k);
    }
  }

  /** A relative import is judged by the path it resolves to, under src/vs/ without
      the first directory; any other import by what is written. */
  lemma ResolvedPaths(join: (string, string) -> string)
    requires join("src/vs/a/b.ts", "./c.js") == "src/vs/a/c.js" && join("test/b.ts", "../c.js") == "c.js"
    ensures Resolved("src/vs/a/b.ts", "./c.js", join) == "vs/a/c.js"
    ensures Resolved("test/b.ts", "../c.js", join) == "c.js"
    ensures Resolved("src/vs/a/b.ts", "fs", join) == "fs"
    ensures IsVS("src/vs/a/b.ts") && !IsVS("test/b.ts")
  {
    var path := "src/vs/a/c.js";
    assert path[..7] == "src/vs/" && "src/vs/a/b.ts"[..7] == "src/vs/";
    assert path[|"src/"|..] == "vs/a/c.js";
    assert "test/b.ts"[0] == 't';
  }
}
