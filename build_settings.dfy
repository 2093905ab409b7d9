/**
 * The environment-driven part of the bundler configuration: one flag,
 * `development`, computed once from `NODE_ENV`, chooses the `mode`, the
 * `devtool` and the first loader of the stylesheet rule.
 */
module BuildSettings {
  import opened Wrappers
  import opened ModuleRules

  /** `devtool`: a source-map style, or `false`. */
  datatype Devtool = SourceMap(style: string) | NoDevtool

  /** The settings of the exported configuration that depend on the environment. */
  datatype Settings = Settings(mode: string, devtool: Devtool, rules: seq<Rule>)

  /** `process.env.NODE_ENV !== 'production'`; `None` is an unset variable, which is not `'production'`. */
  predicate IsDevelopment(nodeEnv: Option<string>)
    ensures nodeEnv.None? ==> IsDevelopment(nodeEnv)
    ensures nodeEnv.Some? ==> (IsDevelopment(nodeEnv) <==> nodeEnv.value != "production")
  {
    nodeEnv != Some("production")
  }

  /** The configuration's `mode`, `devtool` and `module.rules` under `NODE_ENV`. */
  function Configure(nodeEnv: Option<string>): (s: Settings)
    ensures s.mode == "development" || s.mode == "production"
    ensures s.mode == "production" <==> nodeEnv == Some("production")
    ensures s.devtool == NoDevtool <==> nodeEnv == Some("production")
    ensures |s.rules| == 5 && |s.rules[StylesheetRule].use| == 3
    ensures s.rules[StylesheetRule].use[0] == CssExtractLoader <==> nodeEnv == Some("production")
  {
    var development := IsDevelopment(nodeEnv);
    Settings(
      if development then "development" else "production",
      if development then SourceMap("eval-cheap-source-map") else NoDevtool,
      Rules(development))
  }

  /** The first loader the stylesheet rule runs. */
  function StyleLoaderOf(s: Settings): Loader
    requires |s.rules| == 5 && |s.rules[StylesheetRule].use| > 0
  {
    s.rules[StylesheetRule].use[0]
  }

  /** `NODE_ENV=production`: production mode, no devtool, CSS extracted into files. */
  lemma ProductionSettings()
    ensures Configure(Some("production")).mode == "production"
    ensures Configure(Some("production")).devtool == NoDevtool
    ensures StyleLoaderOf(Configure(Some("production"))) == CssExtractLoader
  {
  }

  /**
   * Any other value, including an unset variable or a different spelling of
   * `production`: development mode, a cheap eval source map, styles injected
   * by `style-loader`.
   */
  lemma DevelopmentSettings(nodeEnv: Option<string>)
    requires nodeEnv != Some("production")
    ensures Configure(nodeEnv).mode == "development"
    ensures Configure(nodeEnv).devtool == SourceMap("eval-cheap-source-map")
    ensures StyleLoaderOf(Configure(nodeEnv)) == StyleLoader
  {
  }

  /** The comparison is exact: an unset variable and `Production` both mean development. */
  lemma ExampleNotExactlyProduction()
    ensures Configure(None).mode == "development"
    ensures Configure(Some("Production")).mode == "development"
  {
  }

  /** The environment never changes which rules apply to a path. */
  lemma SelectionIndependentOfEnvironment(env1: Option<string>, env2: Option<string>, path: string)
    ensures MatchingRules(Configure(env1).rules, path) == MatchingRules(Configure(env2).rules, path)
  {
    SelectionIgnoresDevelopment(path);
  }
}
