# Bundler configuration decisions of the Double Helix Timeline scaffold

This project models the decision logic in the scaffold's webpack configuration
(`webpack.config.js`). That logic is pure: string tests and one derived flag.
It has three parts, each in its own module:

- `VendorChunk` (`vendor_chunk.dfy`) covers the `vendor` cache group of
  `optimization.splitChunks`. Its membership test is the regex
  `/[\\/]node_modules[\\/]/`. Its `name(module)` function matches
  `module.context` against `/[\\/]node_modules[\\/](.*?)([\\/]|$)/`, reads
  group 1, removes the first `@` with `replace('@', '')` and prefixes `npm.`.
  The regex is modelled with ECMAScript semantics: the leftmost start wins,
  the lazy group stops at the first separator or at the end, `$` matches only
  at the end, and `.` does not match a line terminator. When a lazy capture
  reaches a line terminator, that start fails and the next start is tried.
  When nothing matches, `match` returns `null` and reading `[1]` of it throws.
  This is modelled as `Failure(NullMatch)`.
- `ModuleRules` (`module_rules.dfy`) covers `module.rules`. Each rule
  `test` is anchored only at the end, by `$`, and accepts a finite set of
  suffixes. It is kept as that list: `/\.(sa|sc|c)ss$/` accepts `.sass`,
  `.scss` and `.css`, and `/\.js$/` accepts `.js` alone. The
  `exclude: /node_modules/` test is unanchored, so it matches those twelve
  characters anywhere in the path. `MatchingRules` returns the set of rule
  indices that apply to a path.
- `BuildSettings` (`build_settings.dfy`) covers the `development` flag,
  computed as `process.env.NODE_ENV !== 'production'`. The flag selects
  `mode`, `devtool` and the first loader of the stylesheet rule. An unset
  `NODE_ENV` is `None`.

`Paths` (`paths.dfy`) holds the directory name `node_modules` and the test
for its occurrence anywhere in a path, which both the rule excludes and the
vendor cache group build on. `Wrappers` (`wrappers.dfy`) holds the `Option`
and `Result` types.

## Model

| member | source | states |
|---|---|---|
| Paths.ContainsNodeModules | webpack.config.js:24 | The unanchored `/node_modules/` test holds exactly when the path is some string, then `node_modules`, then some string. |
| VendorChunk.InVendorGroup | webpack.config.js:100 | The cache-group test holds when a separator, `node_modules` and a separator occur together anywhere in the path, with `/` and `\` mixed freely. |
| VendorChunk.VendorGroupIsExcluded | webpack.config.js:100 | Every path in the vendor group also contains `node_modules` in the sense of the unanchored exclude of line 24, so the script and shader rules skip every vendor module. |
| VendorChunk.MatchesAt | webpack.config.js:102 | The meaning of the naming regex at one start: a separator-bounded `node_modules` segment at `i`, then group 1 `p` free of separators and line terminators, then a separator or the end of the string. Its partner `MatchAt` is proved equivalent. |
| VendorChunk.IsLeftmostMatch | webpack.config.js:102 | What a non-global `match` reports: a match at `m.index` with no matchable start before it. Such a match is the one the single-start matcher finds at `m.index`. |
| VendorChunk.CaptureEnd | webpack.config.js:102 | The closing group (a separator or the end) first succeeds at the first separator at or after the start of the capture, or at the end of the string. No separator comes before that point. |
| VendorChunk.MatchAt | webpack.config.js:102 | At one start index, the result is `Some(p)` exactly when the pattern matches there with group 1 equal to `p`. That means a separator-bounded `node_modules` segment, then `p` with no separator or line terminator, then a separator or the end. |
| VendorChunk.FirstMatchFrom | webpack.config.js:102 | The scan returns a match at or after `i` with no matchable start between `i` and that match. It returns nothing only when no start from `i` on can match. |
| VendorChunk.MatchVendorPattern | webpack.config.js:102 | `context.match(...)` returns the leftmost match. It returns `null` exactly when no start index matches. |
| VendorChunk.LeftmostMatchUnique | webpack.config.js:102 | Two leftmost matches of one context are equal, so the match result is determined by the context. |
| VendorChunk.IndexOf | webpack.config.js:103 | `indexOf` returns -1 exactly when the character is absent. Otherwise it returns an index holding the character, with no earlier occurrence. |
| VendorChunk.RemoveFirst | webpack.config.js:103 | `replace(c, '')` with a one-character string pattern leaves a string without `c` unchanged. Otherwise it removes only the first occurrence of `c` and keeps everything before and after it. It never adds a character. The replacement is empty, so no `$` pattern is expanded. |
| VendorChunk.ChunkName | webpack.config.js:101-104 | `name(module)` throws exactly when no start index of the context matches. A returned name starts with `npm.` and contains no separator after it. |
| VendorChunk.ChunkNameOfLeftmost | webpack.config.js:102-103 | The name is `npm.` followed by the leftmost capture with its first `@` removed. |
| VendorChunk.ChunkNameDefinedIffSegment | webpack.config.js:100-102 | For a context without line terminators, naming succeeds if and only if the context passes the vendor group's own test. |
| VendorChunk.ChunkNameOfPackagePath | webpack.config.js:102-103 | Take `pre`, separator, `node_modules`, separator, `pkg`, then the end or a separator, with `/` and `\` mixed freely and no earlier segment. Its name is `npm.` followed by `pkg` with its first `@` removed. |
| VendorChunk.ScopedChunkName | webpack.config.js:102-103 | `.../node_modules/@scope/pkg/...` is named `npm.scope`. Only the scope segment is captured, and its `@` is dropped. |
| VendorChunk.RemoveLeadingAt | webpack.config.js:103 | Removing the first `@` from `@` + `t` gives `t`. |
| VendorChunk.RemoveOnlyFirstAt | webpack.config.js:103 | `"@a@b".replace('@', '')` is `"a@b"`. |
| VendorChunk.NamedContextIsInVendorGroup | webpack.config.js:100-102 | If a context can be named, every path that extends it passes the vendor group's test. |
| VendorChunk.SubdirectoryKeepsChunkName | webpack.config.js:101-104 | Adding a separator and more path to a named context keeps its name, so every module of one package goes to one chunk. |
| VendorChunk.ExampleOutsideNodeModules | webpack.config.js:102 | Naming the context `/app/src/js` throws. |
| VendorChunk.ExampleFileDirectlyInNodeModules | webpack.config.js:100-102 | `/app/node_modules/x.js` passes the group test, but naming its directory `/app/node_modules` throws, because no separator follows `node_modules`. |
| ModuleRules.Rules | webpack.config.js:21-51 | The five rules in source order. Every suffix a test accepts is one of the thirteen accepted suffixes. Exactly the script and the two shader rules exclude `node_modules`, the two shader rules share one test, and the stylesheet rule's first of three loaders is `style-loader` exactly when `development` holds. |
| ModuleRules.EndsWith | webpack.config.js:23 | A `$`-anchored test for one suffix: the suffix fits in the path and forms its last characters. `AppliesIffSplit` restates this as the path being some string followed by the suffix. |
| ModuleRules.Applies | webpack.config.js:22-50 | A rule applies when the path ends with one of its suffixes and, if the rule has the `node_modules` exclude, the name does not occur in the path. |
| ModuleRules.AppliesIffSplit | webpack.config.js:22-50 | A rule applies exactly when the path is some string followed by one of its suffixes and, for a rule with the exclude, no split of the path has `node_modules` in the middle. |
| ModuleRules.MatchingRules | webpack.config.js:22-50 | The indices of the rules that apply. Every index names a rule, and an index is absent when its test fails or when its exclude hits. `SelectionBySuffix` and `UnrecognizedSelection` give the whole set for every path. |
| ModuleRules.RulesBySuffix | webpack.config.js:22-50 | For a path ending with accepted suffix `e`, each of the five rules applies exactly when it lists `e` and is not excluded by `node_modules`. |
| ModuleRules.SuffixesDistinct | webpack.config.js:22-50 | No suffix accepted by a rule test is a suffix of another accepted suffix. For example, `.woff` and `.woff2` are distinct, and so are `.css` and `.scss`. |
| ModuleRules.SuffixesExclusive | webpack.config.js:22-50 | A path ends with at most one of the accepted suffixes. |
| ModuleRules.TestBySuffix | webpack.config.js:22-50 | For a path ending with accepted suffix `e`, a rule's test matches exactly when the rule lists `e`. |
| ModuleRules.SelectionBySuffix | webpack.config.js:22-50 | Gives the complete set of applying rules for each accepted suffix. Scripts get the Babel rule, shaders get both shader rules, and neither gets any rule when the path contains `node_modules`. Stylesheets always get the stylesheet rule and assets always get the asset rule. |
| ModuleRules.ScriptSelection | webpack.config.js:23-24 | A `.js` path selects exactly the Babel rule. If the path contains `node_modules` anywhere, it selects no rule. |
| ModuleRules.ShaderSelection | webpack.config.js:30-38 | A `.glsl`, `.frag` or `.vert` path selects both the raw-loader and glslify-loader rules. If it contains `node_modules`, it selects none. |
| ModuleRules.StylesheetSelection | webpack.config.js:39-46 | A `.sass`, `.scss` or `.css` path selects exactly the stylesheet rule, even inside `node_modules`. |
| ModuleRules.AssetSelection | webpack.config.js:47-50 | A `.png`, `.woff`, `.woff2`, `.eot`, `.ttf` or `.svg` path selects exactly the asset rule. |
| ModuleRules.UnrecognizedSelection | webpack.config.js:22-50 | A path ending with none of the accepted suffixes selects no rule. |
| ModuleRules.SelectionIgnoresDevelopment | webpack.config.js:39-46 | `development` changes a loader, never the set of applying rules. |
| ModuleRules.ExampleJsxSelectsNothing | webpack.config.js:23 | `src/App.jsx` selects no rule, because `\.js$` needs `.js` at the very end. |
| ModuleRules.ExampleJpgSelectsNothing | webpack.config.js:48 | `img/photo.jpg` selects no rule. |
| ModuleRules.ExampleExcludeIsUnanchored | webpack.config.js:23-24 | `src/my_node_modules_notes/a.js` selects no rule. The exclude matches `node_modules` inside a longer directory name. |
| BuildSettings.IsDevelopment | webpack.config.js:11 | An unset `NODE_ENV` means development. A set one means development exactly when it differs from `production`. |
| BuildSettings.Configure | webpack.config.js:11-89 | `mode` is `production`, `devtool` is `false` and the first stylesheet loader is the CSS-extract loader, each exactly when `NODE_ENV` is `'production'` (lines 11, 14, 42, 89). Otherwise `mode` is `development`. |
| BuildSettings.ProductionSettings | webpack.config.js:11-89 | With `NODE_ENV=production`, `mode` is `production`, there is no devtool, and CSS is extracted. |
| BuildSettings.DevelopmentSettings | webpack.config.js:11-89 | Any other `NODE_ENV`, including an unset one, gives `development`, `eval-cheap-source-map` and `style-loader`. |
| BuildSettings.ExampleNotExactlyProduction | webpack.config.js:11 | The comparison is strict equality: an unset variable and `Production` both mean development. |
| BuildSettings.SelectionIndependentOfEnvironment | webpack.config.js:39-46 | `NODE_ENV` never changes which rules apply to a path. |

## Left out

- `src/js/components/DoubleHelixTimeline/index.js` is not modelled. It only constructs Three.js renderer, scene and camera objects and appends a canvas to the DOM: foreign graphics code, floating-point aspect ratio and DOM I/O. The input validation one might expect there (errors for non-positive dimensions or a near plane at or beyond the far plane) does not exist in that code. At lines 14-15 the code uses an undeclared `renderer` instead of `this.renderer`.
- The plugins (`HtmlWebpackPlugin`, `HotModuleReplacementPlugin`, `HashedModuleIdsPlugin`, `BrowserSyncPlugin` with its reload callback, `MiniCssExtractPlugin`), the minimizers, `devServer`, `entry`, `output.path`, `runtimeChunk` and `chunks: 'all'` are not modelled: they are opaque third-party code or I/O.
- Substitution of `[name]` and `[hash]` in output file names is not modelled: it happens inside webpack.
- The order in which webpack runs the loaders of several matching rules, and what each loader does, are not modelled: those are foreign libraries. Loaders are names only; the `?limit=100000` query of `url-loader` is kept as a number.
- How webpack derives `module.context` (the directory of the resource) and which string it gives the cache-group test are not modelled. `ChunkName` takes the context and `InVendorGroup` takes the path, each as a parameter.
- Only the three regular expressions of the configuration are modelled, not a general regex engine. Strings are sequences of characters rather than UTF-16 code units. This makes no difference to these patterns, whose special characters are all ASCII.
