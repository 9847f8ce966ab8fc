# twig-boilerplate build scripts in Dafny

This project models the decision and text logic of the two asset build scripts
of twig-boilerplate, a Twig/Sass front-end starter kit, and proves properties
of that model.

- **Style build** (`scripts/styles.js`):
  - The import manifest. Every `.scss` file found under `src/components`,
    `src/layouts` and `src/pages` becomes an `@import "…";` line.
  - The compilation unit. The entry file `src/styles/main.scss` is followed
    by the manifest.
  - The partial-file filter.
  - The watch-event filter.
  - The rewrite of a compile error's text.
  - One build cycle: compile, post-process and write, with the linter run
    beside it and the two settled as `Promise.all` settles them.
  - What `start` does with the first build's outcome.
- **Sprite build** (`scripts/sprite.js`):
  - The icon name taken from each SVG path.
  - The first `viewBox` value of each icon.
  - The loop that adds icons to the sprite and builds the name → viewBox map.
  - The sprite wrapper.
  - The global replace that writes the map's JSON into the icon template's
    `viewBoxes` block.

Four of the six regular expressions are each modelled twice:

- the partial filter `/\/_[^/]+\.scss$/i` (`PartialMatch` and `IsPartial`);
- the icon name `/[^/]+(?=\.svg)/i` (`NameMatch` and `IconName`);
- the viewBox value `/(?<=viewBox=['"])[^'"]+/gi` (`ViewBoxAt` and
  `ViewBoxValue`);
- the template block `/(?<=viewBoxes[^{]+){[^{}]+}/g` (`MatchSpan` and
  `MatchEnd`).

Each has a ghost predicate for the set of matches the pattern describes, and
a function for the scan a JavaScript engine performs. Each scan is proved to
agree with its pattern.

The other two are modelled once each:

- The import-path regex `/(_(?=.+\.scss)|\.scss$)/gi` is the scan
  `StripImport`. Only its lookahead has a pattern predicate
  (`UnderscoreLookahead`). The scan's result is given in closed form by
  `ImportPathOfScssFile`.
- The watch filter `/\.scss$/` is a case-sensitive suffix test
  (`WatchAccepts`).

The modelled regex semantics:

- `.` does not match line terminators.
- The `i` flag without `u` folds ASCII letters only.
- Lookahead and lookbehind are existential conditions on the whole text.
- `match` returns the leftmost start and then the longest greedy match.
- A global replace resumes after each match.

`String.prototype.replace` with a string pattern replaces the first
occurrence only. Its replacement text goes through the `$$`, `$&`, `` $` ``
and `$'` expansions (`SubstituteOnePattern`). Those expansions also apply to
the map's JSON in the template rewrite (`RewriteAtMatchStep`).

The modules:

- `JsStrings` (`js_strings.dfy`): the JavaScript string operations the
  scripts use.
- `StylePaths` (`style_paths.dfy`): paths, the manifest and the filters.
- `StyleBuild` (`style_build.dfy`): the build cycle. The class
  `StyleBuilder` holds the output stylesheet as its `output` field.
- `SpriteText` (`sprite_text.dfy`): the three sprite regexes.
- `SpriteBuild` (`sprite_build.dfy`): the sprite loop. The class
  `SpriteBuilder` holds:
  - the shared sprite collection (`added`);
  - the sprite template (`spriteFile`);
  - the icon template (`template`).

External tools are parameters of the model:

- file contents (`read`);
- the glob results (sequences of paths);
- the Sass compiler, the postcss pipeline and stylelint (functions from
  their inputs to a result or an error);
- the sprite compiler;
- `JSON.stringify`.

The regex at `scripts/styles.js:67` removes every underscore that has
`.scss` (any case) starting two or more characters later. Underscores in
directory names are removed too, not only the leading underscore of a
partial's file name. The model follows the code as written.
`DirectoryUnderscoreRemoved` states the consequence: a partial in
`components/my_card` is imported as `components/mycard/…`.

## Model

| member | source | states |
|---|---|---|
| JsStrings.IndexOf | scripts/styles.js:66 | the result is the first index at or after `from` where the pattern occurs; none when it occurs nowhere after `from` |
| JsStrings.SubstitutePlainPrefix | scripts/styles.js:135 | replacement text without `$` is copied as it is, ahead of whatever the rest of the replacement expands to |
| JsStrings.SubstituteOnePattern | scripts/sprite.js:34 | in a replacement with one `$` pattern, `$$` gives `$`, `$&` the matched text, `` $` `` the text before the match and `$'` the text after it; the rest is kept |
| JsStrings.ReplaceFirst | scripts/styles.js:66 | string `replace`: the first occurrence becomes the expanded replacement (properties in `ReplaceFirstAbsent`, `ReplaceFirstOccurrence`, `ReplaceFirstAtStart`) |
| JsStrings.Join | scripts/styles.js:81 | `Array.prototype.join` (properties in `JoinEnds`, `JoinThenSplit`) |
| JsStrings.Substitute | scripts/styles.js:135 | a replacement text without `$` is inserted exactly as it is |
| JsStrings.ReplaceFirstAbsent | scripts/styles.js:66 | a path in which the source prefix does not occur is left unchanged by the prefix strip |
| JsStrings.ReplaceFirstOccurrence | scripts/styles.js:66 | only the first occurrence is replaced; the text before it and everything after it, later occurrences included, is kept |
| JsStrings.ReplaceFirstAtStart | scripts/styles.js:66 | a pattern that begins the text is the occurrence replaced, leaving the rest of the text |
| JsStrings.JoinThenSplit | scripts/styles.js:81 | joining lines with a one-character separator no line contains is undone by cutting at that character |
| JsStrings.JoinEnds | scripts/styles.js:81 | the joined text begins with the first part and ends with the last |
| StylePaths.ScssAhead | scripts/styles.js:67 | the scan for `.*\.scss` from a position succeeds exactly when `.scss` (any case) starts there or later with no line terminator in between |
| StylePaths.UnderscoreLooksAhead | scripts/styles.js:67 | the computed lookahead after an underscore holds exactly when `(?=.+\.scss)` holds there |
| StylePaths.StripImport | scripts/styles.js:67 | the global replace of the import-path regex with `''`, scanned left to right (closed form in `ImportPathOfScssFile`, identity in `StripImportNoScss`) |
| StylePaths.ImportPath | scripts/styles.js:65-67 | the prefix strip followed by the regex (stated in `ImportPathUnderSrc`, `PartialImportPath`) |
| StylePaths.ImportStatement | scripts/styles.js:68 | one manifest entry, `@import "<path>";` |
| StylePaths.CompilationUnit | scripts/styles.js:81 | the entry text followed by the manifest joined with newlines (stated in `CompilationUnitShape`, `AppendedImportsAreLines`) |
| StylePaths.WatchAccepts | scripts/styles.js:215 | the case-sensitive `.scss` suffix test (stated in `WatchFilterIsCaseSensitive`) |
| StylePaths.BasePath | scripts/styles.js:118 | the first `<root>/src/` removed from the path (stated in `BasePathOfEntry`) |
| StylePaths.RewriteFormatted | scripts/styles.js:135 | the first `stdin` replaced by the base path (stated in `RewriteNamesFile`) |
| StylePaths.ImportPathOfScssFile | scripts/styles.js:67 | for a path ending in `.scss` (any case) without line breaks, the regex removes the extension and every underscore except one directly before the extension; with no underscore there, none is left |
| StylePaths.StripImportNoScss | scripts/styles.js:67 | a path without `.scss` in any case passes through the regex unchanged |
| StylePaths.AdditionalImports | scripts/styles.js:58-72 | one `@import "<path>";` entry per discovered file, components then layouts then pages, each built from its own path |
| StylePaths.ImportPathUnderSrc | scripts/styles.js:65-67 | a file below `<root>/src/` loses that prefix and then goes through the regex |
| StylePaths.StripPartial | scripts/styles.js:67 | `dir/_name.scss` becomes `dir/name` with every underscore of `dir` removed |
| StylePaths.PartialImportPath | scripts/styles.js:65-68 | a partial below the source root is imported by its directory and name without the marker, the extension or the underscores of its directories |
| StylePaths.DirectoryUnderscoreRemoved | scripts/styles.js:67 | an underscore inside a directory name is removed as well, so the import names a different directory |
| StylePaths.CompilationUnitShape | scripts/styles.js:77-81 | the unit starts with the entry text; the first import follows it with no separator; the last import ends it; an empty manifest leaves the entry text unchanged |
| StylePaths.AppendedImportsAreLines | scripts/styles.js:81 | the appended text, cut at newlines, is exactly the manifest |
| StylePaths.IsPartial | scripts/styles.js:125 | the computed test holds exactly when `/\/_[^/]+\.scss$/i` matches the path |
| StylePaths.LastSegmentIsPartial | scripts/styles.js:125 | every path ending in `/_`, a non-empty name without `/` and `.scss` in any case is a partial |
| StylePaths.PartialIsLastSegment | scripts/styles.js:125 | every partial has that shape |
| StylePaths.BareUnderscoreIsNotPartial | scripts/styles.js:125 | a file named just `_.scss` is not a partial |
| StylePaths.WatchFilterIsCaseSensitive | scripts/styles.js:215 | every path the watch filter accepts ends in `.scss`, but `main.SCSS` passes the case-insensitive regexes and not the watch filter |
| StylePaths.RewriteNamesFile | scripts/styles.js:135 | the first `stdin` of the diagnostic is replaced by the base path; all other text, later `stdin`s included, is kept |
| StylePaths.BasePathOfEntry | scripts/styles.js:118 | the base path of a file below `src/` is its path relative to `src` |
| StyleBuild.CompileStep | scripts/styles.js:117-145 | a partial settles at once with nothing written; the output is written exactly when compile and post-process both succeed, and then holds the post-processed CSS; the step succeeds exactly when it skipped or wrote; a compile error rejects with the rewritten formatted text; a post-process error rejects with postcss's own failure |
| StyleBuild.Lint | scripts/styles.js:166-192 | the lint branch resolves exactly when the report has no error; an errored report rejects with the fixed message and the linter output as formatted text; a throwing linter passes its error on |
| StyleBuild.All | scripts/styles.js:202 | the build resolves exactly when both branches resolve; with one failure it rejects with that failure; with two it rejects with the failure of the branch that settles first |
| StyleBuild.Cycle | scripts/styles.js:194-211 | one build as a value: its outcome, and the output once both branches have settled (stated in `CycleOutput`, `CycleSucceeds`, `LintFailureKeepsOutput`) |
| StyleBuild.CycleOutput | scripts/styles.js:194-211 | after a build the output holds the post-processed CSS when the entry file compiled and post-processed, whatever the linter says, and is otherwise unchanged |
| StyleBuild.LintFailureKeepsOutput | scripts/styles.js:202 | a lint failure fails the build but does not retract the stylesheet already written |
| StyleBuild.CycleSucceeds | scripts/styles.js:194-206 | a build succeeds exactly when the entry file compiles and post-processes and the linter reports no error |
| StyleBuild.EntryCompileErrorNamesEntry | scripts/styles.js:129-137 | a compile error in `src/styles/main.scss` names `styles/main.scss` in place of `stdin` |
| StyleBuild.MainFileIsNotPartial | scripts/styles.js:196 | the entry file is never taken for a partial |
| StyleBuild.ErrorDetail | scripts/styles.js:238 | the detail shown is the formatted text exactly when that text is present and non-empty, otherwise the stack |
| StyleBuild.EmptyLintOutputShowsStack | scripts/styles.js:238 | an errored lint report with empty output shows the stack trace instead of the output |
| StyleBuild.StartOnLintFailure | scripts/styles.js:255-257 | a lint failure that settles first makes `start` exit with code 2 and show that failure, before the compile branch writes |
| StyleBuild.StartPolicy | scripts/styles.js:245-259 | watch exactly when the build succeeded and argv holds `--watch` or `-w`; finish when it succeeded without them; exit with code 2 and show the failure exactly when it failed |
| StyleBuild.StyleBuilder.CompileFile | scripts/styles.js:75-95 | the compiler receives the entry text followed by the joined manifest |
| StyleBuild.StyleBuilder.ProcessFile | scripts/styles.js:117-145 | settles as `CompileStep`; overwrites `output` only when `CompileStep` writes, with what it writes |
| StyleBuild.StyleBuilder.Build | scripts/styles.js:194-211 | settles as `Cycle` does; leaves `output` as `Cycle` says |
| StyleBuild.StyleBuilder.OnWatchEvent | scripts/styles.js:213-225 | a build runs exactly when the path ends in lower-case `.scss`; otherwise nothing changes; a failed build's error is shown, not passed on |
| StyleBuild.StyleBuilder.Start | scripts/styles.js:245-259 | one build, then the action `StartPolicy` prescribes for its outcome; the stylesheet is the one the build leaves, except that a lint failure settling first exits before the compile branch writes and leaves it as it was |
| SpriteText.NameEndFrom | scripts/sprite.js:40 | from a start, the greedy `[^/]+` followed by `.svg` ends at the longest place the lookahead holds; none when it holds nowhere |
| SpriteText.NameSpanFrom | scripts/sprite.js:40 | the match is at the leftmost start where the pattern matches at all, with its longest end |
| SpriteText.IconName | scripts/sprite.js:38-50 | the name is non-empty and has no `/`; there is no name exactly when the pattern matches nowhere in the path |
| SpriteText.IconNameIsLeftmostLongest | scripts/sprite.js:40 | a leftmost, then longest, match is the name returned |
| SpriteText.IconNameOfFile | scripts/sprite.js:40 | `dir/name.svg`, with no other `.svg`, is named `name` |
| SpriteText.DirectoryNameComesFirst | scripts/sprite.js:40 | a first directory named `x.svg` names the icon `x`, whatever file lies below it |
| SpriteText.FirstViewBox | scripts/sprite.js:61 | the scan returns the leftmost position where `(?<=viewBox=['"])[^'"]` matches (any case), or none |
| SpriteText.ViewBoxValue | scripts/sprite.js:61-64 | there is no value exactly when the pattern matches nowhere; a value is non-empty and has no quote |
| SpriteText.ViewBoxOfAttribute | scripts/sprite.js:61 | for the first `viewBox=` attribute, in any case, the value between its quotes is recorded, whichever quote characters enclose it |
| SpriteText.ViewBoxesBeforeMeaning | scripts/sprite.js:34 | the backward scan answers whether `viewBoxes` plus one or more non-`{` characters ends at the position |
| SpriteText.LookbehindMeaning | scripts/sprite.js:34 | the computed lookbehind holds exactly where `(?<=viewBoxes[^{]+)` holds |
| SpriteText.BlockEndMeaning | scripts/sprite.js:34 | the block scan finds a block exactly when `{[^{}]+}` matches there, and finds its end |
| SpriteText.MatchEndMeaning | scripts/sprite.js:34 | the scan finds a match exactly where the whole pattern matches, and finds its end |
| SpriteText.RewriteTemplate | scripts/sprite.js:34 | the global replace of the `viewBoxes` block regex with the JSON text (stated in `TemplateWithoutBlock`, `SingleBlockRewrite`, `RewriteAtMatchStep`, `EmptyMapBlockKept`) |
| SpriteText.RewriteFromKeeps | scripts/sprite.js:34 | a character where the pattern matches nothing is kept, and the replace goes on with the next one |
| SpriteText.RewriteFromSkips | scripts/sprite.js:34 | a stretch of text where nothing matches is copied as it is |
| SpriteText.NoMatchFound | scripts/sprite.js:34 | where the pattern does not match, the scan finds nothing |
| SpriteText.TemplateWithoutBlock | scripts/sprite.js:34-35 | a template with no match is written back unchanged |
| SpriteText.EmptyBlockNeverMatched | scripts/sprite.js:34 | an empty `{}` is never a match, whatever precedes it |
| SpriteText.SingleBlockRewrite | scripts/sprite.js:34 | with exactly one match, and a JSON text without `$`, that block is replaced by the JSON and all other text is kept |
| SpriteText.RewriteAtMatch | scripts/sprite.js:34 | at a pattern match, a JSON text without `$` is written in place of the block and the replace resumes after it |
| SpriteText.RewriteAtMatchStep | scripts/sprite.js:34 | at a pattern match, any JSON text, with its `$` patterns expanded against the block and the text around it, is written in place of the block and the replace resumes after it |
| SpriteText.MatchEndAt | scripts/sprite.js:34 | where the pattern matches, the scan finds that match and its end |
| SpriteText.EmptyMapBlockKept | scripts/sprite.js:34 | once an empty map `{}` has been written, a later run keeps everything up to and including it |
| SpriteBuild.FileData | scripts/sprite.js:38-50 | the icon's name and contents, or nothing when the path has no name (name properties in `IconName`) |
| SpriteBuild.AddedIcons | scripts/sprite.js:57-69 | the icons the loop adds, in path order (stated in `NamedPathIsAdded`, `AddedIconComesFromPath`, `IconWithoutViewBox`) |
| SpriteBuild.ViewBoxes | scripts/sprite.js:57-69 | the name → viewBox map the loop builds (stated in `ViewBoxKeysAreAddedNames`, `LastViewBoxWins`, `IconWithoutViewBox`) |
| SpriteBuild.Record | scripts/sprite.js:64 | the name is stored with its value unless it is `__proto__`; all other keys are kept; no other key appears |
| SpriteBuild.NamedPathIsAdded | scripts/sprite.js:57-69 | every path with a name is added to the sprite, with or without a viewBox |
| SpriteBuild.AddedIconComesFromPath | scripts/sprite.js:57-69 | everything added comes from a path with a name |
| SpriteBuild.ViewBoxKeysAreAddedNames | scripts/sprite.js:57-69 | every key of the map is the name of an added icon and not `__proto__`; every value is non-empty and has no quote |
| SpriteBuild.LastViewBoxWins | scripts/sprite.js:63-65 | the value under a name is that of the last path with that name that has a viewBox |
| SpriteBuild.IconWithoutViewBox | scripts/sprite.js:60-68 | an icon with a name but no viewBox is added to the sprite and leaves the map unchanged |
| SpriteBuild.WrapSprite | scripts/sprite.js:75 | the wrapper adds exactly the container's opening and closing tags |
| SpriteBuild.UnwrapWrapSprite | scripts/sprite.js:75 | taking the container off the wrapped sprite gives the compiled sprite back |
| SpriteBuild.SpriteBuilder.UpdateTemplateViewBox | scripts/sprite.js:30-36 | the template is replaced by its rewrite with the map's JSON, whether or not anything matched; nothing else changes |
| SpriteBuild.SpriteBuilder.GetSvgPaths | scripts/sprite.js:52-83 | the sprite collection grows by exactly the named icons, in path order; the sprite template holds the wrapped compilation of the collection; the icon template is rewritten with the JSON of the map `ViewBoxes` describes |

## Left out

- File and tool I/O are parameters:
  - glob results are given as sequences of paths;
  - file reads are a function;
  - writes are the fields `output`, `spriteFile` and `template`.
  - The Sass compiler, postcss (autoprefixer, pxtorem), stylelint,
    svg2sprite and `JSON.stringify` are opaque functions.
  - Key order in the JSON text is not modelled.
- chokidar, the console, desktop notifications, `console.clear` and the
  elapsed-time reports are not modelled. They are I/O and floating-point
  timing.
- Errors a read or write throws (`readFileSync`, `outputFileSync`) are not
  modelled. Neither is the state the sprite build is left in when one is
  thrown part-way.
- `writeCSS` is handed the postcss `Result` object itself, not its `.css`.
  Whether `outputFileSync` writes it depends on Node turning that object into
  text, and newer Node versions reject such objects. The model writes the
  post-processed CSS text.
- The `Promise.all` interleaving is reduced to one parameter,
  `lintSettlesFirst`: whether the lint branch settles before the compile
  branch. It has two effects:
  - it decides which failure wins when both branches fail;
  - in `start`, a lint failure that settles first leads to `process.exit(2)`
    before the compile branch writes.
  Where the script keeps running (`build` in watch mode), the output is the
  state once both branches have settled. Watch-triggered builds that overlap
  are not modelled, because the code has no debounce or mutex; each event is
  one sequential cycle. `compileID` and `lintID` are never used by the code.
- StyleBuild.RenderResult: a compiler error always carries `formatted`.
  An error without it would make `err.formatted.replace` throw a
  `TypeError`, and that path is not modelled.
- StyleBuild.ErrorDetail: the stack trace is not modelled and shows as
  `None`.
- The event name passed to `onWatchEvent` only appears in a log line, so
  it is left out.
- `path.resolve(PROJECT_ROOT, …)` is modelled as `root + "/…"`. This is
  faithful for an absolute root without a trailing slash. The root `/`
  itself, and normalisation of `.` and `..`, are not modelled.
- Characters are Unicode scalar values rather than UTF-16 code units. The
  regexes only compare ASCII characters, so this matters only for
  surrogate pairs, which the model does not split.
- `showError` in `scripts/sprite.js` refers to an undefined `error` and is
  not modelled. Neither is the sprite script's `start`, which only calls
  it.
- How svg2sprite treats two icons with the same name is part of the opaque
  compiler. The model passes it the whole sequence of additions.
- `scripts/server.js` (a preview server) and `public/index.js` (browser
  event handling) are not part of this model. They are web and UI code.
