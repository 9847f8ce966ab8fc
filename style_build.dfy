/** One build cycle of the style pipeline (scripts/styles.js): compile the entry
    file unless it is a partial, post-process and write the CSS, lint every
    `.scss` file, combine the two outcomes as `Promise.all` does, and decide
    what `start` and the watcher do with the result. The compiler, the
    post-processor, the linter and the file system are parameters. */
module StyleBuild {
  import opened JsStrings
  import opened StylePaths

  /** A thrown error as `showError` sees it: its message and, when present, its
      `formatted` text. */
  datatype Failure = Failure(message: string, formatted: Option<string>)

  /** How a promise settles: resolved, or rejected with a failure. */
  datatype Outcome = Done | Failed(failure: Failure)

  /** What `sass.render` calls back with. */
  datatype RenderResult = Rendered(css: string) | RenderError(message: string, formatted: string)

  /** What the postcss pipeline settles with. */
  datatype PostResult = Processed(css: string) | PostError(failure: Failure)

  /** What `stylelint.lint` settles with. */
  datatype LintReport = LintReport(errored: bool, output: string) | LintThrew(failure: Failure)

  /** The external tools, as functions of their inputs: the Sass compiler on a
      compilation unit, the post-processor on CSS and its `from` name, the linter
      on a list of files. */
  datatype Tools = Tools(
    render: string -> RenderResult,
    postProcess: (string, string) -> PostResult,
    lint: seq<string> -> LintReport)

  /** The project as a cycle sees it: the project root, what the globs find under
      `src/components`, `src/layouts`, `src/pages` and `src`, and the text of
      each file. */
  datatype Workspace = Workspace(
    root: string,
    components: seq<string>,
    layouts: seq<string>,
    pages: seq<string>,
    styleFiles: seq<string>,
    read: string -> string)

  /** `path.resolve(PROJECT_ROOT, 'src')`. */
  function SrcDir(root: string): string {
    root + "/src"
  }

  /** The entry file's path below `src`. */
  const MainRel: string := "styles/main.scss"

  /** `path.resolve(PROJECT_ROOT, 'src/styles/main.scss')`. */
  function MainFile(root: string): string {
    SrcDir(root) + "/" + MainRel
  }

  const LintErrorMessage: string := "\nError while linting styles!"

  /** The compile branch's effect: how it settles and what, if anything, it
      writes to the output stylesheet. */
  datatype Step = Step(outcome: Outcome, write: Option<string>)

  /** The text `compileFile` hands to the compiler for `file`. */
  function UnitFor(ws: Workspace, file: string): string {
    CompilationUnit(ws.read(file), AdditionalImports(ws.root, ws.components, ws.layouts, ws.pages))
  }

  /** `processFile(filePath)` as a value. A partial settles at once with nothing
      written; otherwise the output is written exactly when both the compiler
      and the post-processor succeed, and a compile error carries its formatted
      text with the first `stdin` naming the file. */
  function CompileStep(ws: Workspace, tools: Tools, filePath: string): (s: Step)
    ensures IsPartial(filePath) ==> s == Step(Done, None)
    ensures s.write.Some? <==>
      !IsPartial(filePath) && tools.render(UnitFor(ws, filePath)).Rendered? &&
      tools.postProcess(tools.render(UnitFor(ws, filePath)).css, BasePath(SrcDir(ws.root), filePath)).Processed?
    ensures s.outcome.Done? <==> IsPartial(filePath) || s.write.Some?
    ensures s.write.Some? ==>
      s.write.value == tools.postProcess(tools.render(UnitFor(ws, filePath)).css, BasePath(SrcDir(ws.root), filePath)).css
    ensures !IsPartial(filePath) && tools.render(UnitFor(ws, filePath)).RenderError? ==>
      var e := tools.render(UnitFor(ws, filePath));
      s.outcome == Failed(Failure(e.message, Some(RewriteFormatted(e.formatted, BasePath(SrcDir(ws.root), filePath)))))
    ensures !IsPartial(filePath) && tools.render(UnitFor(ws, filePath)).Rendered? ==>
      var post := tools.postProcess(tools.render(UnitFor(ws, filePath)).css, BasePath(SrcDir(ws.root), filePath));
      post.PostError? ==> s.outcome == Failed(post.failure)
  {
    var basePath := BasePath(SrcDir(ws.root), filePath);
    if IsPartial(filePath) then Step(Done, None)
    else
      match tools.render(UnitFor(ws, filePath))
      case RenderError(message, formatted) =>
        Step(Failed(Failure(message, Some(RewriteFormatted(formatted, basePath)))), None)
      case Rendered(css) =>
        match tools.postProcess(css, basePath)
        case PostError(f) => Step(Failed(f), None)
        case Processed(out) => Step(Done, Some(out))
  }

  /** `lint(files)`: an errored report becomes a failure whose formatted text is
      the linter's output; a linter that throws passes its error on. */
  function Lint(report: LintReport): (r: Outcome)
    ensures r.Done? <==> report.LintReport? && !report.errored
    ensures report.LintReport? && report.errored ==> r == Failed(Failure(LintErrorMessage, Some(report.output)))
    ensures report.LintThrew? ==> r == Failed(report.failure)
  {
    match report
    case LintThrew(f) => Failed(f)
    case LintReport(errored, output) =>
      if errored then Failed(Failure(LintErrorMessage, Some(output))) else Done
  }

  /** `Promise.all([compile, lint])`: resolved when both resolve, otherwise
      rejected with the failure of whichever branch rejects first;
      `lintSettlesFirst` says whether the lint branch settles before the
      compile branch. */
  function All(compile: Outcome, lint: Outcome, lintSettlesFirst: bool): (r: Outcome)
    ensures r.Done? <==> compile.Done? && lint.Done?
    ensures compile.Failed? && lint.Done? ==> r == compile
    ensures compile.Done? && lint.Failed? ==> r == lint
    ensures compile.Failed? && lint.Failed? ==> r == (if lintSettlesFirst then lint else compile)
  {
    if compile.Failed? && (lint.Done? || !lintSettlesFirst) then compile
    else lint
  }

  /** What one cycle leaves behind: how `build` settles and the output file. */
  datatype CycleResult = CycleResult(outcome: Outcome, output: Option<string>)

  /** `build()` as a value: compile the entry file and lint every `.scss` file.
      The output is whatever the compile branch wrote, or what was there before;
      the lint branch never touches it. */
  function Cycle(ws: Workspace, tools: Tools, previous: Option<string>, lintSettlesFirst: bool): CycleResult {
    var step := CompileStep(ws, tools, MainFile(ws.root));
    CycleResult(
      All(step.outcome, Lint(tools.lint(ws.styleFiles)), lintSettlesFirst),
      if step.write.Some? then step.write else previous)
  }

  /** Where the output comes from: a cycle writes exactly when the entry file
      compiles and post-processes, whatever the linter says, and otherwise leaves
      the previous output in place. */
  lemma CycleOutput(ws: Workspace, tools: Tools, previous: Option<string>, lintSettlesFirst: bool)
    ensures var c := Cycle(ws, tools, previous, lintSettlesFirst);
      var unit := UnitFor(ws, MainFile(ws.root));
      var base := BasePath(SrcDir(ws.root), MainFile(ws.root));
      (tools.render(unit).Rendered? && tools.postProcess(tools.render(unit).css, base).Processed? ==>
        c.output == Some(tools.postProcess(tools.render(unit).css, base).css)) &&
      (!(tools.render(unit).Rendered? && tools.postProcess(tools.render(unit).css, base).Processed?) ==>
        c.output == previous)
  {
    MainFileIsNotPartial(ws.root);
  }

  /** A lint failure fails the build without retracting the stylesheet the
      compile branch wrote. */
  lemma LintFailureKeepsOutput(ws: Workspace, tools: Tools, previous: Option<string>, lintSettlesFirst: bool)
    requires CompileStep(ws, tools, MainFile(ws.root)).write.Some?
    requires Lint(tools.lint(ws.styleFiles)).Failed?
    ensures var c := Cycle(ws, tools, previous, lintSettlesFirst);
      c.outcome == Lint(tools.lint(ws.styleFiles)) &&
      c.output == CompileStep(ws, tools, MainFile(ws.root)).write
  {
  }

  /** The build succeeds exactly when the entry file compiles and post-processes
      and the linter reports no error. */
  lemma CycleSucceeds(ws: Workspace, tools: Tools, previous: Option<string>, lintSettlesFirst: bool)
    ensures var unit := UnitFor(ws, MainFile(ws.root));
      var base := BasePath(SrcDir(ws.root), MainFile(ws.root));
      Cycle(ws, tools, previous, lintSettlesFirst).outcome.Done? <==>
        tools.render(unit).Rendered? && tools.postProcess(tools.render(unit).css, base).Processed? &&
        tools.lint(ws.styleFiles).LintReport? && !tools.lint(ws.styleFiles).errored
  {
    MainFileIsNotPartial(ws.root);
  }

  /** A compile error in the entry file names it by its path below `src`. */
  lemma EntryCompileErrorNamesEntry(ws: Workspace, tools: Tools)
    requires tools.render(UnitFor(ws, MainFile(ws.root))).RenderError?
    ensures var e := tools.render(UnitFor(ws, MainFile(ws.root)));
      CompileStep(ws, tools, MainFile(ws.root)).outcome ==
        Failed(Failure(e.message, Some(RewriteFormatted(e.formatted, MainRel))))
  {
    MainFileIsNotPartial(ws.root);
    BasePathOfEntry(SrcDir(ws.root), MainRel);
  }

  /** The entry file `src/styles/main.scss` is never taken for a partial, so every
      build compiles it. */
  lemma MainFileIsNotPartial(root: string)
    ensures !IsPartial(MainFile(root))
  {
    var p := MainFile(root);
    var i := |SrcDir(root)| + 7;
    assert p == SrcDir(root) + "/styles" + "/main.scss" by {
      assert "/" + MainRel == "/styles" + "/main.scss";
    }
    assert p[i] == '/' && p[i + 1] == 'm';
    assert forall k :: i < k < |p| - 5 ==> p[k] != '/';
  }

  /** The text `showError` prints under the message: the formatted text when it
      is present and not empty (`error.formatted || error.stack`), otherwise the
      stack trace, which is not modelled and shows as `None`. */
  function ErrorDetail(f: Failure): (d: Option<string>)
    ensures d.Some? <==> f.formatted.Some? && f.formatted.value != ""
    ensures d.Some? ==> d == f.formatted
  {
    if f.formatted.Some? && f.formatted.value != "" then f.formatted else None
  }

  /** An errored lint report with empty output shows the stack trace instead. */
  lemma EmptyLintOutputShowsStack(report: LintReport)
    requires report.LintReport? && report.errored && report.output == ""
    ensures Lint(report).Failed? && ErrorDetail(Lint(report).failure).None?
  {
  }

  /** Whether `start` exits before the compile branch settles: the lint branch
      rejects, and it settles first. */
  predicate ExitsBeforeWrite(report: LintReport, lintSettlesFirst: bool) {
    lintSettlesFirst && Lint(report).Failed?
  }

  /** A one-shot run whose lint failure settles first exits with code 2 and
      that failure, and leaves the stylesheet as it was; otherwise the run ends
      with the stylesheet the build leaves behind. */
  lemma StartOnLintFailure(ws: Workspace, tools: Tools, previous: Option<string>, argv: seq<string>)
    requires Lint(tools.lint(ws.styleFiles)).Failed?
    ensures var c := Cycle(ws, tools, previous, true);
      ExitsBeforeWrite(tools.lint(ws.styleFiles), true) &&
      StartPolicy(c.outcome, argv) == Exited(2, Lint(tools.lint(ws.styleFiles)).failure)
  {
  }

  /** What `start` ends in. */
  datatype StartAction = Watching | Finished | Exited(code: int, shown: Failure)

  /** The decision `start` takes on the initial build's outcome and the command
      line: watch only after a successful build with `--watch` or `-w`; a failed
      build shows its error and exits with code 2. */
  function StartPolicy(build: Outcome, argv: seq<string>): (a: StartAction)
    ensures a == Watching <==> build.Done? && ("--watch" in argv || "-w" in argv)
    ensures a == Finished <==> build.Done? && "--watch" !in argv && "-w" !in argv
    ensures a.Exited? <==> build.Failed?
    ensures a.Exited? ==> a.code == 2 && a.shown == build.failure
  {
    match build
    case Failed(f) => Exited(2, f)
    case Done => if "--watch" in argv || "-w" in argv then Watching else Finished
  }

  /** The build script's state across cycles: the project, the tools and the
      current content of `public/styles/styles.css` (`None` until first written). */
  class StyleBuilder {
    const ws: Workspace
    const tools: Tools
    var output: Option<string>

    constructor (ws: Workspace, tools: Tools, output: Option<string>)
      ensures this.ws == ws && this.tools == tools && this.output == output
    {
      this.ws := ws;
      this.tools := tools;
      this.output := output;
    }

    /** `compileFile(file)`: read the file, append the manifest, hand the unit to
        the compiler. */
    method CompileFile(file: string) returns (unit: string, result: RenderResult)
      ensures unit == UnitFor(ws, file)
      ensures result == tools.render(unit)
    {
      var mainData := ws.read(file);
      var importsArray := AdditionalImports(ws.root, ws.components, ws.layouts, ws.pages);
      mainData := mainData + Join(importsArray, "\n");
      unit := mainData;
      result := tools.render(unit);
    }

    /** `processFile(filePath)`: settles as `CompileStep` says and overwrites the
        output only when `CompileStep` writes. */
    method ProcessFile(filePath: string) returns (r: Outcome)
      modifies this
      ensures r == CompileStep(ws, tools, filePath).outcome
      ensures output == (if CompileStep(ws, tools, filePath).write.Some?
        then CompileStep(ws, tools, filePath).write else old(output))
    {
      var basePath := BasePath(SrcDir(ws.root), filePath);
      var css := "";
      if IsPartial(filePath) {
        return Done;
      }
      var unit, result := CompileFile(filePath);
      match result {
        case RenderError(message, formatted) =>
          return Failed(Failure(message, Some(RewriteFormatted(formatted, basePath))));
        case Rendered(c) =>
          css := c;
      }
      var post := tools.postProcess(css, basePath);
      match post {
        case PostError(f) =>
          return Failed(f);
        case Processed(out) =>
          output := Some(out);
          return Done;
      }
    }

    /** `build()`: the compile branch on the entry file, the lint branch on every
        `.scss` file, settled as `Promise.all` settles them. */
    method Build(lintSettlesFirst: bool) returns (r: Outcome)
      modifies this
      ensures Cycle(ws, tools, old(output), lintSettlesFirst) == CycleResult(r, output)
    {
      var compiled := ProcessFile(MainFile(ws.root));
      var linted := Lint(tools.lint(ws.styleFiles));
      r := All(compiled, linted, lintSettlesFirst);
    }

    /** `onWatchEvent(event, path)`: only a path ending in lower-case `.scss`
        triggers a build; its failure is shown, not passed on. */
    method OnWatchEvent(path: string, lintSettlesFirst: bool) returns (triggered: bool, shown: Option<Failure>)
      modifies this
      ensures triggered <==> WatchAccepts(path)
      ensures !triggered ==> output == old(output) && shown == None
      ensures triggered ==>
        var c := Cycle(ws, tools, old(output), lintSettlesFirst);
        output == c.output && (shown.Some? <==> c.outcome.Failed?) &&
        (shown.Some? ==> shown.value == c.outcome.failure)
    {
      triggered := WatchAccepts(path);
      shown := None;
      if triggered {
        var r := Build(lintSettlesFirst);
        if r.Failed? {
          shown := Some(r.failure);
        }
      }
    }

    /** `start()`: one build, then watch, finish, or exit with code 2. A lint
        failure that settles before the compile branch rejects the build at
        once, and `process.exit(2)` ends the script before the pending compile
        branch can write the stylesheet. */
    method Start(argv: seq<string>, lintSettlesFirst: bool) returns (action: StartAction)
      modifies this
      ensures var c := Cycle(ws, tools, old(output), lintSettlesFirst);
        action == StartPolicy(c.outcome, argv) &&
        output == (if ExitsBeforeWrite(tools.lint(ws.styleFiles), lintSettlesFirst) then old(output) else c.output)
    {
      var linted := Lint(tools.lint(ws.styleFiles));
      if lintSettlesFirst && linted.Failed? {
        action := Exited(2, linted.failure);
        return;
      }
      var r := Build(lintSettlesFirst);
      if r.Done? {
        if "--watch" in argv || "-w" in argv {
          action := Watching;
        } else {
          action := Finished;
        }
      } else {
        action := Exited(2, r.failure);
      }
    }
  }
}
