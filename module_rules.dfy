/**
 * `module.rules` of the bundler configuration: which rules apply to a
 * resource path. A rule applies when its `test` matches the path and its
 * `exclude`, if any, does not. Every `test` in the configuration is anchored
 * at the end only, by `$`, and accepts a finite set of suffixes, so it is kept
 * as that list (`/\.(sa|sc|c)ss$/` accepts `.sass`, `.scss` and `.css`;
 * `/\.js$/` accepts `.js` alone). The only `exclude` is `/node_modules/`,
 * unanchored, so it matches those twelve characters anywhere in the path.
 */
module ModuleRules {
  import opened Paths

  /** The loaders the rules name in `use`. */
  datatype Loader =
    | BabelLoader
    | RawLoader
    | GlslifyLoader
    | StyleLoader
    | CssExtractLoader
    | CssLoader
    | SassLoader
    | UrlLoader(limit: nat)

  /** One entry of `module.rules`. */
  datatype Rule = Rule(suffixes: seq<string>, excludesNodeModules: bool, use: seq<Loader>)

  const ScriptSuffixes: seq<string> := [".js"]
  const ShaderSuffixes: seq<string> := [".glsl", ".frag", ".vert"]
  const StylesheetSuffixes: seq<string> := [".sass", ".scss", ".css"]
  const AssetSuffixes: seq<string> := [".png", ".woff", ".woff2", ".eot", ".ttf", ".svg"]

  /** Index of each rule in `module.rules`. */
  const BabelRule: nat := 0
  const RawShaderRule: nat := 1
  const GlslifyShaderRule: nat := 2
  const StylesheetRule: nat := 3
  const AssetRule: nat := 4

  /** A `$`-anchored test for one suffix: `s` is some string followed by `suffix`. */
  predicate EndsWith(s: string, suffix: string) {
    |suffix| <= |s| && s[|s| - |suffix|..] == suffix
  }

  predicate EndsWithAny(s: string, suffixes: seq<string>) {
    exists e :: e in suffixes && EndsWith(s, e)
  }

  /** A rule applies to a path: its test matches and its exclude, if any, does not. */
  predicate Applies(rule: Rule, path: string) {
    EndsWithAny(path, rule.suffixes) && !(rule.excludesNodeModules && ContainsNodeModules(path))
  }

  /**
   * What `Applies` means in terms of the path itself: the path is some string
   * followed by one of the rule's suffixes, and, when the rule excludes
   * `node_modules`, the name does not occur anywhere in it.
   */
  lemma AppliesIffSplit(rule: Rule, path: string)
    ensures Applies(rule, path)
        <==> && (exists e, p :: e in rule.suffixes && path == p + e)
             && (rule.excludesNodeModules ==> forall p, q :: path != p + NodeModules + q)
  {
    if EndsWithAny(path, rule.suffixes) {
      var e :| e in rule.suffixes && EndsWith(path, e);
      assert path == path[..|path| - |e|] + e;
    }
    forall e, p | e in rule.suffixes && path == p + e ensures EndsWith(path, e) {
      assert path[|p|..] == e;
    }
  }

  /** `module.rules`; only the stylesheet rule's first loader depends on `development`. */
  function Rules(development: bool): (rules: seq<Rule>)
    ensures |rules| == 5
    ensures forall i :: 0 <= i < 5 ==> forall e :: e in rules[i].suffixes ==> e in AllSuffixes
    ensures forall i :: 0 <= i < 5 ==> (rules[i].excludesNodeModules <==> i < StylesheetRule)
    ensures rules[RawShaderRule].suffixes == rules[GlslifyShaderRule].suffixes
    ensures |rules[StylesheetRule].use| == 3
    ensures rules[StylesheetRule].use[0] == StyleLoader <==> development
  {
    [ Rule(ScriptSuffixes, true, [BabelLoader]),
      Rule(ShaderSuffixes, true, [RawLoader]),
      Rule(ShaderSuffixes, true, [GlslifyLoader]),
      Rule(StylesheetSuffixes, false,
           [if development then StyleLoader else CssExtractLoader, CssLoader, SassLoader]),
      Rule(AssetSuffixes, false, [UrlLoader(100000)]) ]
  }

  /** The indices of the rules that apply to `path`. */
  function MatchingRules(rules: seq<Rule>, path: string): (r: set<nat>)
    ensures forall i :: i in r ==> i < |rules|
    ensures forall i :: 0 <= i < |rules| && !EndsWithAny(path, rules[i].suffixes) ==> i !in r
    ensures forall i :: 0 <= i < |rules| && rules[i].excludesNodeModules && ContainsNodeModules(path) ==> i !in r
  {
    set i: nat | i < |rules| && Applies(rules[i], path)
  }

  const AllSuffixes: seq<string> := ScriptSuffixes + ShaderSuffixes + StylesheetSuffixes + AssetSuffixes

  /** Two suffixes of one string: the shorter is a suffix of the longer. */
  lemma EndsWithBoth(s: string, a: string, b: string)
    requires EndsWith(s, a) && EndsWith(s, b) && |a| <= |b|
    ensures EndsWith(b, a)
  {
    assert b[|b| - |a|..] == s[|s| - |a|..];
  }

  /** The characters of a suffix, read from the end of the string. */
  lemma EndsWithChars(s: string, e: string)
    requires EndsWith(s, e)
    ensures forall k :: 0 <= k < |e| ==> s[|s| - |e| + k] == e[k]
  {
    forall k | 0 <= k < |e| ensures s[|s| - |e| + k] == e[k] {
      assert s[|s| - |e|..][k] == e[k];
    }
  }

  /** The last three characters and the first character of `e` tell the accepted suffixes apart. */
  ghost predicate Distinguished(a: string, b: string) {
    || |b| < |a|
    || (&& |a| >= 3
        && (|| b[|b| - 1] != a[|a| - 1] || b[|b| - 2] != a[|a| - 2] || b[|b| - 3] != a[|a| - 3]
            || b[|b| - |a|] != a[0]))
  }

  lemma EndsWithFingerprint(a: string, b: string)
    requires EndsWith(b, a) && |a| >= 3
    ensures !Distinguished(a, b)
  {
    EndsWithChars(b, a);
    assert b[|b| - |a| + (|a| - 1)] == a[|a| - 1];
    assert b[|b| - |a| + (|a| - 2)] == a[|a| - 2];
    assert b[|b| - |a| + (|a| - 3)] == a[|a| - 3];
    assert b[|b| - |a| + 0] == a[0];
  }

  lemma DistinguishedNotEndsWith(a: string, b: string)
    requires Distinguished(a, b)
    ensures !EndsWith(b, a)
  {
    if EndsWith(b, a) && |a| >= 3 {
      EndsWithFingerprint(a, b);
    }
  }

  lemma GroupDistinct(group: seq<string>)
    requires forall a, b :: a in group && b in AllSuffixes && a != b ==> Distinguished(a, b)
    ensures forall a, b :: a in group && b in AllSuffixes && a != b ==> !EndsWith(b, a)
  {
    forall a, b | a in group && b in AllSuffixes && a != b ensures !EndsWith(b, a) {
      DistinguishedNotEndsWith(a, b);
    }
  }

  /** No suffix the rules accept is a suffix of another one. */
  lemma SuffixesDistinct()
    ensures forall a, b :: a in AllSuffixes && b in AllSuffixes && a != b ==> !EndsWith(b, a)
  {
    GroupDistinct(ScriptSuffixes);
    GroupDistinct(ShaderSuffixes);
    GroupDistinct(StylesheetSuffixes);
    GroupDistinct(AssetSuffixes);
  }

  /** A path ends with at most one of the suffixes the rules accept. */
  lemma SuffixesExclusive(s: string, a: string, b: string)
    requires a in AllSuffixes && b in AllSuffixes
    requires EndsWith(s, a) && EndsWith(s, b)
    ensures a == b
  {
    SuffixesDistinct();
    if |a| <= |b| {
      EndsWithBoth(s, a, b);
    } else {
      EndsWithBoth(s, b, a);
    }
  }

  /** For a path ending with an accepted suffix `e`, a rule test accepts the path exactly when it lists `e`. */
  lemma TestBySuffix(path: string, e: string, suffixes: seq<string>)
    requires e in AllSuffixes && EndsWith(path, e)
    requires forall x :: x in suffixes ==> x in AllSuffixes
    ensures EndsWithAny(path, suffixes) <==> e in suffixes
  {
    if EndsWithAny(path, suffixes) {
      var x :| x in suffixes && EndsWith(path, x);
      SuffixesExclusive(path, e, x);
    }
  }

  /** For a path ending with an accepted suffix `e`, each rule applies exactly when it lists `e` and is not excluded. */
  lemma RulesBySuffix(path: string, e: string, development: bool)
    requires e in AllSuffixes && EndsWith(path, e)
    ensures forall i :: 0 <= i < 5 ==>
      (Applies(Rules(development)[i], path)
       <==> e in Rules(development)[i].suffixes
            && !(Rules(development)[i].excludesNodeModules && ContainsNodeModules(path)))
  {
    var rules := Rules(development);
    forall i | 0 <= i < 5
      ensures Applies(rules[i], path)
          <==> e in rules[i].suffixes && !(rules[i].excludesNodeModules && ContainsNodeModules(path))
    {
      TestBySuffix(path, e, rules[i].suffixes);
    }
  }

  /**
   * Rule selection for a path ending with one of the accepted suffixes: a
   * script selects the Babel rule and a shader both shader rules, unless the
   * path contains `node_modules` anywhere; a stylesheet selects the
   * stylesheet rule and an asset the asset rule wherever they live.
   */
  lemma {:induction false} SelectionBySuffix(path: string, e: string, development: bool)
    requires e in AllSuffixes && EndsWith(path, e)
    ensures MatchingRules(Rules(development), path)
         == if e in ScriptSuffixes then
              (if ContainsNodeModules(path) then {} else {BabelRule})
            else if e in ShaderSuffixes then
              (if ContainsNodeModules(path) then {} else {RawShaderRule, GlslifyShaderRule})
            else if e in StylesheetSuffixes then {StylesheetRule}
            else {AssetRule}
  {
    RulesBySuffix(path, e, development);
    var selected := MatchingRules(Rules(development), path);
    forall i | i in selected ensures i < 5 && Applies(Rules(development)[i], path) {
    }
    if e in ScriptSuffixes {
      assert e !in ShaderSuffixes && e !in StylesheetSuffixes && e !in AssetSuffixes;
    } else if e in ShaderSuffixes {
      assert e !in StylesheetSuffixes && e !in AssetSuffixes;
    } else if e in StylesheetSuffixes {
      assert e !in AssetSuffixes;
    }
  }

  /** A `.js` path selects exactly the Babel rule, or no rule at all when it contains `node_modules`. */
  lemma ScriptSelection(path: string, development: bool)
    requires EndsWith(path, ".js")
    ensures MatchingRules(Rules(development), path)
         == if ContainsNodeModules(path) then {} else {BabelRule}
  {
    SelectionBySuffix(path, ".js", development);
  }

  /** A `.glsl`, `.frag` or `.vert` path selects both shader rules, unless it contains `node_modules`. */
  lemma ShaderSelection(path: string, e: string, development: bool)
    requires e in ShaderSuffixes && EndsWith(path, e)
    ensures MatchingRules(Rules(development), path)
         == if ContainsNodeModules(path) then {} else {RawShaderRule, GlslifyShaderRule}
  {
    SelectionBySuffix(path, e, development);
  }

  /** A `.sass`, `.scss` or `.css` path selects the stylesheet rule, even inside `node_modules`. */
  lemma StylesheetSelection(path: string, e: string, development: bool)
    requires e in StylesheetSuffixes && EndsWith(path, e)
    ensures MatchingRules(Rules(development), path) == {StylesheetRule}
  {
    SelectionBySuffix(path, e, development);
  }

  /** A font or image path selects the asset rule, even inside `node_modules`. */
  lemma AssetSelection(path: string, e: string, development: bool)
    requires e in AssetSuffixes && EndsWith(path, e)
    ensures MatchingRules(Rules(development), path) == {AssetRule}
  {
    SelectionBySuffix(path, e, development);
  }

  /** A path that ends with none of the accepted suffixes selects no rule. */
  lemma UnrecognizedSelection(path: string, development: bool)
    requires forall e :: e in AllSuffixes ==> !EndsWith(path, e)
    ensures MatchingRules(Rules(development), path) == {}
  {
    forall i | 0 <= i < 5 ensures !Applies(Rules(development)[i], path) {
      assert !EndsWithAny(path, Rules(development)[i].suffixes);
    }
  }

  /** Whether `development` is set changes which loaders run, never which rules apply. */
  lemma SelectionIgnoresDevelopment(path: string)
    ensures MatchingRules(Rules(true), path) == MatchingRules(Rules(false), path)
  {
    assert forall i :: 0 <= i < 5 ==>
      (Rules(true)[i].suffixes == Rules(false)[i].suffixes
       && Rules(true)[i].excludesNodeModules == Rules(false)[i].excludesNodeModules);
  }

  /** `\\.js$` does not accept `.jsx`, and no other rule does either. */
  lemma ExampleJsxSelectsNothing(path: string, development: bool)
    requires path == "src/App.jsx"
    ensures MatchingRules(Rules(development), path) == {}
  {
    forall e | e in AllSuffixes ensures !EndsWith(path, e) {
      if EndsWith(path, e) {
        EndsWithFingerprint(e, path);
      }
    }
    UnrecognizedSelection(path, development);
  }

  /** `.jpg` is not among the asset suffixes: no rule applies. */
  lemma ExampleJpgSelectsNothing(path: string, development: bool)
    requires path == "img/photo.jpg"
    ensures MatchingRules(Rules(development), path) == {}
  {
    forall e | e in AllSuffixes ensures !EndsWith(path, e) {
      if EndsWith(path, e) {
        EndsWithFingerprint(e, path);
      }
    }
    UnrecognizedSelection(path, development);
  }

  /** The exclude is unanchored: `node_modules` inside a longer directory name still excludes a script. */
  lemma ExampleExcludeIsUnanchored(path: string, development: bool)
    requires path == "src/my_node_modules_notes/a.js"
    ensures MatchingRules(Rules(development), path) == {}
  {
    assert path == "src/my_" + NodeModules + "_notes/a.js";
    assert path[7..19] == NodeModules;
    assert NameAt(path, 7);
    ScriptSelection(path, development);
  }
}
