/** The path and text logic of the style build (scripts/styles.js): turning the
    discovered `.scss` files into `@import` lines, appending them to the entry
    file, deciding which files are partials, which watch events count, and how a
    compile error's text is rewritten. */
module StylePaths {
  import opened JsStrings

  /** Characters the regular-expression `.` does not match. */
  predicate IsLineTerminator(c: char) {
    c == '\n' || c == '\r' || c == 0x2028 as char || c == 0x2029 as char
  }

  /** True when the regular-expression `.` matches every character of `s`. */
  predicate NoLineBreaks(s: string) {
    forall k :: 0 <= k < |s| ==> !IsLineTerminator(s[k])
  }

  lemma NoLineBreaksConcat(a: string, b: string)
    requires NoLineBreaks(a) && NoLineBreaks(b)
    ensures NoLineBreaks(a + b)
  {
    assert forall k :: |a| <= k < |a + b| ==> (a + b)[k] == b[k - |a|];
  }

  /** `\.scss` under the `i` flag, at index `j`. */
  predicate ScssAt(s: string, j: nat) {
    MatchCiAt(s, j, ".scss")
  }

  // ---------------------------------------------------------------------------
  // The import-path regex /(_(?=.+\.scss)|\.scss$)/gi

  /** What the lookahead `(?=.+\.scss)` after an underscore at `i` demands: at
      least one character that is not a line terminator, then `.scss` in any case. */
  ghost predicate UnderscoreLookahead(s: string, i: nat) {
    exists j :: i + 2 <= j && ScssAt(s, j) &&
      forall k :: i + 1 <= k < j ==> !IsLineTerminator(s[k])
  }

  /** `.scss` (any case) at some `j >= k` with no line terminator in `s[k..j]`. */
  ghost predicate ScssAheadFrom(s: string, k: nat) {
    exists j :: k <= j && ScssAt(s, j) && forall m :: k <= m < j ==> !IsLineTerminator(s[m])
  }

  /** The scan the regex engine performs for `.*\.scss` from `k`. */
  function ScssAhead(s: string, k: nat): (b: bool)
    decreases |s| - k
    ensures b <==> ScssAheadFrom(s, k)
  {
    if k + 5 > |s| then false
    else if ScssAt(s, k) then true
    else if IsLineTerminator(s[k]) then false
    else
      var b := ScssAhead(s, k + 1);
      assert b ==> ScssAheadFrom(s, k) by {
        if b {
          var j :| k + 1 <= j && ScssAt(s, j) && forall m :: k + 1 <= m < j ==> !IsLineTerminator(s[m]);
          assert forall m :: k <= m < j ==> !IsLineTerminator(s[m]);
        }
      }
      b
  }

  /** The lookahead of the underscore alternative, computed. */
  function UnderscoreLooksAhead(s: string, i: nat): (b: bool)
    ensures b <==> UnderscoreLookahead(s, i)
  {
    if i + 1 < |s| && !IsLineTerminator(s[i + 1]) then
      var b := ScssAhead(s, i + 2);
      assert b ==> UnderscoreLookahead(s, i) by {
        if b {
          var j :| i + 2 <= j && ScssAt(s, j) && forall m :: i + 2 <= m < j ==> !IsLineTerminator(s[m]);
          assert forall m :: i + 1 <= m < j ==> !IsLineTerminator(s[m]);
        }
      }
      assert UnderscoreLookahead(s, i) ==> b by {
        if UnderscoreLookahead(s, i) {
          var j :| i + 2 <= j && ScssAt(s, j) && forall m :: i + 1 <= m < j ==> !IsLineTerminator(s[m]);
          assert ScssAheadFrom(s, i + 2);
        }
      }
      b
    else
      false
  }

  /** The global replace with '' as the regex engine runs it from index `i`: an
      underscore whose lookahead holds is dropped, a final `.scss` (any case) is
      dropped, every other character is kept. */
  function StripImportFrom(s: string, i: nat): string
    requires i <= |s|
    decreases |s| - i
  {
    if i == |s| then ""
    else if s[i] == '_' && UnderscoreLooksAhead(s, i) then StripImportFrom(s, i + 1)
    else if i + 5 == |s| && ScssAt(s, i) then ""
    else [s[i]] + StripImportFrom(s, i + 1)
  }

  /** `noSrcPath.replace(/(_(?=.+\.scss)|\.scss$)/gi, '')` */
  function StripImport(s: string): string {
    StripImportFrom(s, 0)
  }

  /** `s` with every underscore removed. */
  function WithoutUnderscores(s: string): (r: string)
    decreases |s|
    ensures '_' !in r
  {
    if |s| == 0 then ""
    else if s[0] == '_' then WithoutUnderscores(s[1..])
    else [s[0]] + WithoutUnderscores(s[1..])
  }

  lemma {:induction false} StripImportKeepsLastChar(s: string, i: nat)
    requires |s| >= 6 && ScssAt(s, |s| - 5)
    requires |s| - 6 <= i <= |s| - 5
    decreases |s| - i
    ensures StripImportFrom(s, i) == s[i..|s| - 5]
  {
    if i == |s| - 6 {
      assert !(i + 5 == |s|);
      StripImportKeepsLastChar(s, i + 1);
    }
  }

  lemma {:induction false} StripImportBody(s: string, i: nat)
    requires |s| >= 6 && ScssAt(s, |s| - 5)
    requires NoLineBreaks(s)
    requires i <= |s| - 6
    decreases |s| - i
    ensures StripImportFrom(s, i) == WithoutUnderscores(s[i..|s| - 6]) + [s[|s| - 6]]
  {
    if i == |s| - 6 {
      StripImportKeepsLastChar(s, i);
      assert s[i..|s| - 5] == [s[|s| - 6]];
    } else {
      StripImportBody(s, i + 1);
      assert s[i..|s| - 6][1..] == s[i + 1..|s| - 6];
      if s[i] == '_' {
        assert UnderscoreLookahead(s, i) by {
          assert forall k :: i + 1 <= k < |s| - 5 ==> !IsLineTerminator(s[k]);
        }
      } else {
        assert !ScssAt(s, i) || i + 5 != |s|;
      }
    }
  }

  /** For a path ending in `.scss` (any case) with no line breaks, the import path
      is the path without its extension and with every underscore removed, except
      an underscore directly before the extension, which stays: underscores in
      directory names are removed as well as the partial marker. */
  lemma ImportPathOfScssFile(s: string)
    requires |s| >= 6 && ScssAt(s, |s| - 5)
    requires NoLineBreaks(s)
    ensures StripImport(s) == WithoutUnderscores(s[..|s| - 6]) + [s[|s| - 6]]
    ensures s[|s| - 6] != '_' ==> '_' !in StripImport(s)
  {
    StripImportBody(s, 0);
  }

  lemma {:induction false} StripImportNoScssFrom(s: string, i: nat)
    requires i <= |s|
    requires forall j :: !ScssAt(s, j)
    decreases |s| - i
    ensures StripImportFrom(s, i) == s[i..]
  {
    if i < |s| {
      StripImportNoScssFrom(s, i + 1);
      assert s[i..] == [s[i]] + s[i + 1..];
    }
  }

  /** A path with no `.scss` in it, in any case, passes through unchanged. */
  lemma StripImportNoScss(s: string)
    requires forall j :: !ScssAt(s, j)
    ensures StripImport(s) == s
  {
    StripImportNoScssFrom(s, 0);
  }

  // ---------------------------------------------------------------------------
  // The import manifest (getAdditionalImports)

  /** The prefix `PROJECT_ROOT + '/src/'` removed from each discovered path. */
  function SrcPrefix(root: string): string {
    root + "/src/"
  }

  /** The import path of one discovered file: the first occurrence of the source
      prefix removed, then the regex applied. */
  function ImportPath(root: string, path: string): string {
    StripImport(ReplaceFirst(path, SrcPrefix(root), ""))
  }

  /** One manifest entry. */
  function ImportStatement(importPath: string): string {
    "@import \"" + importPath + "\";"
  }

  /** `getAdditionalImports` over the three glob results: one statement per
      discovered file, components first, then layouts, then pages. */
  function AdditionalImports(root: string, components: seq<string>, layouts: seq<string>, pages: seq<string>): (r: seq<string>)
    ensures |r| == |components| + |layouts| + |pages|
    ensures forall k :: 0 <= k < |components| ==> r[k] == ImportStatement(ImportPath(root, components[k]))
    ensures forall k :: 0 <= k < |layouts| ==>
      r[|components| + k] == ImportStatement(ImportPath(root, layouts[k]))
    ensures forall k :: 0 <= k < |pages| ==>
      r[|components| + |layouts| + k] == ImportStatement(ImportPath(root, pages[k]))
  {
    var paths := components + layouts + pages;
    assert forall k :: 0 <= k < |layouts| ==> paths[|components| + k] == layouts[k];
    assert forall k :: 0 <= k < |pages| ==> paths[|components| + |layouts| + k] == pages[k];
    seq(|paths|, k requires 0 <= k < |paths| => ImportStatement(ImportPath(root, paths[k])))
  }

  /** A discovered file under the source root: the prefix is stripped where it
      starts the path, and the rest goes through the regex. */
  lemma ImportPathUnderSrc(root: string, rel: string)
    ensures ImportPath(root, SrcPrefix(root) + rel) == StripImport(rel)
  {
    ReplaceFirstAtStart(SrcPrefix(root) + rel, SrcPrefix(root), rel, "");
    assert "" + rel == rel;
  }

  lemma {:induction false} WithoutUnderscoresConcat(a: string, b: string)
    decreases |a|
    ensures WithoutUnderscores(a + b) == WithoutUnderscores(a) + WithoutUnderscores(b)
  {
    if |a| == 0 {
      assert a + b == b;
    } else {
      WithoutUnderscoresConcat(a[1..], b);
      assert (a + b)[0] == a[0] && (a + b)[1..] == a[1..] + b;
    }
  }

  lemma {:induction false} WithoutUnderscoresNone(a: string)
    requires '_' !in a
    decreases |a|
    ensures WithoutUnderscores(a) == a
  {
    if |a| > 0 {
      WithoutUnderscoresNone(a[1..]);
      assert [a[0]] + a[1..] == a;
    }
  }

  lemma MarkerRemoved(dir: string, init: string)
    requires '_' !in init
    ensures WithoutUnderscores(dir + ("/" + ("_" + init))) == WithoutUnderscores(dir) + ("/" + init)
  {
    WithoutUnderscoresConcat(dir, "/" + ("_" + init));
    assert WithoutUnderscores("/" + ("_" + init)) == "/" + init by {
      assert ("/" + ("_" + init))[1..] == "_" + init;
      assert ("_" + init)[1..] == init;
      WithoutUnderscoresNone(init);
    }
  }

  /** The path of the partial `_name.scss` in `dir`. */
  function PartialPath(dir: string, name: string): string {
    dir + "/_" + name + ".scss"
  }

  /** The pieces of a partial's path the regex sees: the extension, the last
      character of the name before it, and the text before that. */
  lemma PartialPathShape(dir: string, name: string)
    requires |name| >= 1
    ensures var p := PartialPath(dir, name);
      |p| >= 6 && ScssAt(p, |p| - 5) && p[|p| - 6] == name[|name| - 1] &&
      p[..|p| - 6] == dir + ("/" + ("_" + name[..|name| - 1]))
  {
    var p := PartialPath(dir, name);
    assert p[|p| - 5..] == ".scss";
    assert p == dir + ("/" + ("_" + name[..|name| - 1])) + [name[|name| - 1]] + ".scss";
  }

  lemma PartialPathNoLineBreaks(dir: string, name: string)
    requires NoLineBreaks(dir) && NoLineBreaks(name)
    ensures NoLineBreaks(PartialPath(dir, name))
  {
    NoLineBreaksConcat(dir, "/_");
    NoLineBreaksConcat(dir + "/_", name);
    NoLineBreaksConcat(dir + "/_" + name, ".scss");
  }

  /** A partial `dir/_name.scss` with no underscore in `name` and no line break
      loses its extension, its partial marker and every underscore of `dir`. */
  lemma StripPartial(dir: string, name: string)
    requires |name| >= 1 && '_' !in name
    requires NoLineBreaks(dir) && NoLineBreaks(name)
    ensures StripImport(PartialPath(dir, name)) == WithoutUnderscores(dir) + "/" + name
  {
    var init, last := name[..|name| - 1], name[|name| - 1];
    var rel := PartialPath(dir, name);
    PartialPathShape(dir, name);
    PartialPathNoLineBreaks(dir, name);
    ImportPathOfScssFile(rel);
    MarkerRemoved(dir, init);
    assert WithoutUnderscores(dir) + ("/" + init) + [last] == WithoutUnderscores(dir) + "/" + name by {
      assert init + [last] == name;
    }
  }

  /** A partial `dir/_name.scss` below the source root, with no underscore in
      `name` and no line break, is imported as `dir/name` with the underscores of
      `dir` removed. */
  lemma PartialImportPath(root: string, dir: string, name: string)
    requires |name| >= 1 && '_' !in name
    requires NoLineBreaks(dir) && NoLineBreaks(name)
    ensures ImportPath(root, SrcPrefix(root) + PartialPath(dir, name)) == WithoutUnderscores(dir) + "/" + name
  {
    ImportPathUnderSrc(root, PartialPath(dir, name));
    StripPartial(dir, name);
  }

  /** An underscore in a directory name is removed too (`components/my_card`
      becomes `components/mycard`), so the import no longer names the directory
      the partial is in. */
  lemma DirectoryUnderscoreRemoved(root: string, left: string, right: string, name: string)
    requires '_' !in left && '_' !in right
    requires |name| >= 1 && '_' !in name
    requires NoLineBreaks(left + "_" + right) && NoLineBreaks(name)
    ensures ImportPath(root, SrcPrefix(root) + PartialPath(left + "_" + right, name)) == left + right + "/" + name
  {
    PartialImportPath(root, left + "_" + right, name);
    assert left + "_" + right == left + ("_" + right);
    WithoutUnderscoresConcat(left, "_" + right);
    WithoutUnderscoresConcat("_", right);
    WithoutUnderscoresNone(left);
    WithoutUnderscoresNone(right);
  }

  // ---------------------------------------------------------------------------
  // The compilation unit (compileFile)

  /** `mainData += importsArray.join('\n')`: the entry text followed by the
      imports, one per line. */
  function CompilationUnit(entry: string, imports: seq<string>): string {
    entry + Join(imports, "\n")
  }

  /** The entry text is kept as it is, at the start of the unit; no separator is
      added before the first import, none after the last, and an empty manifest
      leaves the entry text unchanged. */
  lemma CompilationUnitShape(entry: string, imports: seq<string>)
    ensures |CompilationUnit(entry, imports)| >= |entry|
    ensures CompilationUnit(entry, imports)[..|entry|] == entry
    ensures imports == [] ==> CompilationUnit(entry, imports) == entry
    ensures imports != [] ==>
      var u := CompilationUnit(entry, imports);
      var first := imports[0];
      var last := imports[|imports| - 1];
      |u| >= |entry| + |first| && u[|entry|..|entry| + |first|] == first &&
      |u| >= |last| && u[|u| - |last|..] == last
  {
    if imports != [] {
      JoinEnds(imports, "\n");
      var u := CompilationUnit(entry, imports);
      var j := Join(imports, "\n");
      assert u[|entry|..] == j;
      assert u[|entry|..|entry| + |imports[0]|] == j[..|imports[0]|];
      assert u[|u| - |imports[|imports| - 1]|..] == j[|j| - |imports[|imports| - 1]|..];
    }
  }

  /** When no import path contains a line break, the appended text is exactly the
      manifest, one statement per line. */
  lemma AppendedImportsAreLines(entry: string, imports: seq<string>)
    requires imports != []
    requires forall k :: 0 <= k < |imports| ==> '\n' !in imports[k]
    ensures var u := CompilationUnit(entry, imports);
      |u| >= |entry| && SplitOn(u[|entry|..], '\n') == imports
  {
    var u := CompilationUnit(entry, imports);
    assert u[|entry|..] == Join(imports, "\n");
    JoinThenSplit(imports, '\n');
  }

  // ---------------------------------------------------------------------------
  // The partial filter /\/_[^/]+\.scss$/i

  /** The regex's meaning: a `/`, an underscore, one or more characters other than
      `/`, and `.scss` (any case) ending the path. */
  ghost predicate PartialMatch(path: string) {
    |path| >= 8 && ScssAt(path, |path| - 5) && exists i :: PartialMarkerAt(path, i)
  }

  /** `\/_[^/]+` starting at index `i` and running up to the extension. */
  ghost predicate PartialMarkerAt(path: string, i: nat) {
    i + 8 <= |path| && path[i] == '/' && path[i + 1] == '_' &&
    forall k :: i + 2 <= k < |path| - 5 ==> path[k] != '/'
  }

  /** The last index below `hi` holding `c`. */
  function LastIndexBefore(s: string, c: char, hi: nat): (r: Option<nat>)
    requires hi <= |s|
    decreases hi
    ensures r.Some? ==> r.value < hi && s[r.value] == c
    ensures r.Some? ==> forall k :: r.value < k < hi ==> s[k] != c
    ensures r.None? ==> forall k :: 0 <= k < hi ==> s[k] != c
  {
    if hi == 0 then None
    else if s[hi - 1] == c then Some(hi - 1)
    else LastIndexBefore(s, c, hi - 1)
  }

  /** Whether `processFile` skips the file as a partial: the last `/` before the
      extension is followed by an underscore and at least one more character. */
  function IsPartial(path: string): (b: bool)
    ensures b <==> PartialMatch(path)
  {
    if |path| < 8 || !ScssAt(path, |path| - 5) then false
    else
      var last := LastIndexBefore(path, '/', |path| - 5);
      if last.None? then false
      else
        var i := last.value;
        var b := i + 8 <= |path| && path[i + 1] == '_';
        assert PartialMatch(path) ==> b by {
          if PartialMatch(path) {
            var i' :| PartialMarkerAt(path, i');
            assert path[i] == '/' && path[i' + 1] == '_';
            assert i' == i;
          }
        }
        assert b ==> PartialMarkerAt(path, i);
        b
  }

  /** The partial test in terms of path segments: a path ending in `/_` followed by
      a name of at least one character without `/` and the extension (any case)
      is a partial. */
  lemma LastSegmentIsPartial(dir: string, name: string, ext: string)
    requires |name| >= 1 && '/' !in name
    requires |ext| == 5 && MatchCiAt(ext, 0, ".scss")
    ensures IsPartial(dir + "/_" + name + ext)
  {
    var p := dir + "/_" + name + ext;
    var i := |dir|;
    assert p[i] == '/' && p[i + 1] == '_';
    assert forall k :: i + 2 <= k < |p| - 5 ==> p[k] == name[k - i - 2];
    assert forall k :: 0 <= k < 5 ==> p[|p| - 5 + k] == ext[k];
    assert ScssAt(p, |p| - 5);
  }

  /** Conversely, every partial ends in `/_`, a name of at least one character
      without `/`, and the extension in some case. */
  lemma PartialIsLastSegment(path: string) returns (dir: string, name: string, ext: string)
    requires IsPartial(path)
    ensures path == dir + "/_" + name + ext
    ensures |name| >= 1 && '/' !in name
    ensures |ext| == 5 && MatchCiAt(ext, 0, ".scss")
  {
    var i: nat :| PartialMarkerAt(path, i);
    dir, name, ext := path[..i], path[i + 2..|path| - 5], path[|path| - 5..];
    assert path == dir + "/_" + name + ext;
    assert forall k :: 0 <= k < |name| ==> name[k] == path[i + 2 + k];
  }

  /** A file whose name starts with an underscore is a partial only when that name
      has more than just the extension after the underscore. */
  lemma BareUnderscoreIsNotPartial(dir: string)
    ensures !IsPartial(dir + "/_.scss")
  {
    var p := dir + "/_.scss";
    assert p[|dir|] == '/';
  }

  // ---------------------------------------------------------------------------
  // The watch-event filter /\.scss$/ (no `i` flag)

  /** `path.match(/\.scss$/)`: only a lower-case `.scss` extension counts. */
  predicate WatchAccepts(path: string) {
    EndsWith(path, ".scss")
  }

  /** Every path the watch filter accepts has the extension the other two regexes
      accept, but not the other way round: the watch filter is case-sensitive. */
  lemma WatchFilterIsCaseSensitive(path: string)
    ensures WatchAccepts(path) ==> ScssAt(path, |path| - 5)
    ensures ScssAt("main.SCSS", 4) && !WatchAccepts("main.SCSS")
  {
    assert "main.SCSS"[4..] != ".scss" by { assert "main.SCSS"[5] == 'S'; }
  }

  // ---------------------------------------------------------------------------
  // basePath and the compile-error rewrite

  /** `filePath.replace(path.resolve(PROJECT_ROOT, 'src') + '/', '')`. */
  function BasePath(srcDir: string, filePath: string): string {
    ReplaceFirst(filePath, srcDir + "/", "")
  }

  /** `err.formatted.replace('stdin', basePath)`. */
  function RewriteFormatted(formatted: string, basePath: string): string {
    ReplaceFirst(formatted, "stdin", basePath)
  }

  /** The first `stdin` in the diagnostic names the file instead; later ones and
      all other text stay as they were. */
  lemma RewriteNamesFile(formatted: string, basePath: string, i: nat)
    requires OccursAt(formatted, "stdin", i)
    requires forall j :: 0 <= j < i ==> !OccursAt(formatted, "stdin", j)
    requires '$' !in basePath
    ensures RewriteFormatted(formatted, basePath) == formatted[..i] + basePath + formatted[i + 5..]
  {
    ReplaceFirstOccurrence(formatted, "stdin", basePath, i);
  }

  /** The entry file's base path is its path below the source root. */
  lemma BasePathOfEntry(srcDir: string, rel: string)
    ensures BasePath(srcDir, srcDir + "/" + rel) == rel
  {
    ReplaceFirstAtStart(srcDir + "/" + rel, srcDir + "/", rel, "");
  }
}
