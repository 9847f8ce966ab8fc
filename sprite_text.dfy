/** The three regular expressions of the sprite build (scripts/sprite.js), each
    stated twice: as the set of matches the pattern describes, and as the scan
    that finds the match JavaScript returns.
    - `/[^/]+(?=\.svg)/i`: the icon name in a file path;
    - `/(?<=viewBox=['"])[^'"]+/gi`: the first viewBox value of an icon;
    - `/(?<=viewBoxes[^{]+){[^{}]+}/g`: the brace blocks of the icon template
      that the viewBox map replaces. */
module SpriteText {
  import opened JsStrings

  // ---------------------------------------------------------------------------
  // The icon name /[^/]+(?=\.svg)/i

  /** `\.svg` under the `i` flag, at index `e`. */
  predicate SvgAt(s: string, e: nat) {
    MatchCiAt(s, e, ".svg")
  }

  /** `[^/]+` matching `s[i..e]` with the lookahead `(?=\.svg)` holding at `e`. */
  ghost predicate NameMatch(s: string, i: nat, e: nat) {
    i < e && SvgAt(s, e) && forall k :: i <= k < e ==> s[k] != '/'
  }

  /** The first `/` at or after `i`, or the end of the text. */
  function SegmentEnd(s: string, i: nat): (r: nat)
    requires i <= |s|
    decreases |s| - i
    ensures i <= r <= |s|
    ensures forall k :: i <= k < r ==> s[k] != '/'
    ensures r < |s| ==> s[r] == '/'
  {
    if i == |s| || s[i] == '/' then i else SegmentEnd(s, i + 1)
  }

  /** The largest `e` with `lo < e < hi` where `.svg` (any case) starts. */
  function LastSvgIn(s: string, lo: nat, hi: nat): (r: Option<nat>)
    decreases hi
    ensures r.Some? ==> lo < r.value < hi && SvgAt(s, r.value)
    ensures r.Some? ==> forall e :: r.value < e < hi ==> !SvgAt(s, e)
    ensures r.None? ==> forall e :: lo < e < hi ==> !SvgAt(s, e)
  {
    if hi <= lo + 1 then None
    else if SvgAt(s, hi - 1) then Some(hi - 1)
    else LastSvgIn(s, lo, hi - 1)
  }

  /** Where the greedy `[^/]+` started at `i` ends once it has backtracked to
      the last place the lookahead holds: the longest match from `i`. */
  function NameEndFrom(s: string, i: nat): (r: Option<nat>)
    requires i <= |s|
    ensures r.Some? ==> NameMatch(s, i, r.value)
    ensures r.Some? ==> forall e :: r.value < e ==> !NameMatch(s, i, e)
    ensures r.None? ==> forall e :: !NameMatch(s, i, e)
  {
    var seg := SegmentEnd(s, i);
    assert forall e: nat :: NameMatch(s, i, e) ==> e < seg by {
      forall e: nat | NameMatch(s, i, e) ensures e < seg {
        MatchCiAtNonLetter(s, e, ".svg", 0);
      }
    }
    LastSvgIn(s, i, seg)
  }

  /** The match `String.prototype.match` returns: the leftmost start at or after
      `from` where the pattern matches at all, with its longest match. */
  function NameSpanFrom(s: string, from: nat): (r: Option<(nat, nat)>)
    requires from <= |s|
    decreases |s| - from
    ensures r.Some? ==> from <= r.value.0 && NameMatch(s, r.value.0, r.value.1)
    ensures r.Some? ==> forall i, e :: from <= i < r.value.0 ==> !NameMatch(s, i, e)
    ensures r.Some? ==> forall e :: r.value.1 < e ==> !NameMatch(s, r.value.0, e)
    ensures r.None? ==> forall i, e :: from <= i ==> !NameMatch(s, i, e)
  {
    if from == |s| then None
    else
      match NameEndFrom(s, from)
      case Some(e) => Some((from, e))
      case None => NameSpanFrom(s, from + 1)
  }

  /** `getSVGFileData`'s name: the matched text, or nothing when the path has no
      match. The name is never empty and never contains `/`. */
  function IconName(path: string): (r: Option<string>)
    ensures r.Some? ==> |r.value| >= 1 && '/' !in r.value
    ensures r.None? <==> forall i, e :: !NameMatch(path, i, e)
  {
    match NameSpanFrom(path, 0)
    case None => None
    case Some((i, e)) =>
      assert forall k :: 0 <= k < e - i ==> path[i..e][k] == path[i + k];
      Some(path[i..e])
  }

  /** The name is the leftmost, and then longest, match of the pattern. */
  lemma IconNameIsLeftmostLongest(path: string, i: nat, e: nat)
    requires NameMatch(path, i, e)
    requires forall i': nat, e': nat :: i' < i ==> !NameMatch(path, i', e')
    requires forall e': nat :: e < e' ==> !NameMatch(path, i, e')
    ensures IconName(path) == Some(path[i..e])
  {
    var r := NameSpanFrom(path, 0);
    assert r.Some?;
    assert r.value.0 == i;
    assert r.value.1 == e;
  }

  /** A path whose only `.svg` (in any case) is its extension is named by its last
      segment without the extension. */
  lemma IconNameOfFile(dir: string, name: string)
    requires |name| >= 1 && '/' !in name
    requires forall j :: 0 <= j < |dir| + 1 + |name| ==> !SvgAt(dir + "/" + name + ".svg", j)
    ensures IconName(dir + "/" + name + ".svg") == Some(name)
  {
    var p := dir + "/" + name + ".svg";
    var i, e := |dir| + 1, |p| - 4;
    assert p[|dir|] == '/';
    assert p[i..e] == name;
    assert forall k :: i <= k < e ==> p[k] == name[k - i];
    assert p[e..] == ".svg";
    assert NameMatch(p, i, e);
    assert forall i': nat, e': nat :: NameMatch(p, i', e') ==> e' == e && i' >= i by {
      forall i': nat, e': nat | NameMatch(p, i', e') ensures e' == e && i' >= i {
        assert p[|dir|] == '/';
      }
    }
    IconNameIsLeftmostLongest(p, i, e);
  }

  /** The match is the leftmost one in the whole path, so a directory named like
      an icon file gives its name instead of the file's. */
  lemma DirectoryNameComesFirst(dir: string, rest: string)
    requires |dir| >= 1 && '/' !in dir
    requires forall j :: 0 <= j < |dir| ==> !SvgAt(dir + ".svg/" + rest, j)
    ensures IconName(dir + ".svg/" + rest) == Some(dir)
  {
    var p := dir + ".svg/" + rest;
    assert p[..|dir| + 5] == dir + ".svg/";
    assert forall k :: 0 <= k < |dir| ==> p[k] == dir[k];
    assert NameMatch(p, 0, |dir|);
    assert forall e: nat :: |dir| < e ==> !NameMatch(p, 0, e) by {
      forall e: nat | |dir| < e ensures !NameMatch(p, 0, e) {
        if e <= |dir| + 4 {
          assert p[e] != '.';
          if SvgAt(p, e) { MatchCiAtNonLetter(p, e, ".svg", 0); }
        } else {
          assert p[|dir| + 4] == '/';
        }
      }
    }
    IconNameIsLeftmostLongest(p, 0, |dir|);
    assert p[0..|dir|] == dir;
  }

  // ---------------------------------------------------------------------------
  // The viewBox value /(?<=viewBox=['"])[^'"]+/gi

  predicate IsQuote(c: char) {
    c == '\'' || c == '"'
  }

  /** A match of the viewBox pattern starts at `p`: `viewBox=` in any case and a
      quote just before it, and a character other than a quote at it. */
  ghost predicate ViewBoxAt(s: string, p: nat) {
    9 <= p < |s| && MatchCiAt(s, p - 9, "viewbox=") && IsQuote(s[p - 1]) && !IsQuote(s[p])
  }

  /** Where the greedy `[^'"]+` started at `p` stops: the next quote of either
      kind, or the end of the text. */
  function QuoteEnd(s: string, p: nat): (q: nat)
    requires p <= |s|
    decreases |s| - p
    ensures p <= q <= |s|
    ensures forall k :: p <= k < q ==> !IsQuote(s[k])
    ensures q < |s| ==> IsQuote(s[q])
  {
    if p == |s| || IsQuote(s[p]) then p else QuoteEnd(s, p + 1)
  }

  /** The leftmost match start at or after `from`. */
  function FirstViewBox(s: string, from: nat): (r: Option<nat>)
    decreases |s| - from
    ensures r.Some? ==> from <= r.value && ViewBoxAt(s, r.value)
    ensures r.Some? ==> forall p :: from <= p < r.value ==> !ViewBoxAt(s, p)
    ensures r.None? ==> forall p :: from <= p ==> !ViewBoxAt(s, p)
  {
    if from >= |s| then None
    else if 9 <= from && MatchCiAt(s, from - 9, "viewbox=") && IsQuote(s[from - 1]) && !IsQuote(s[from]) then
      Some(from)
    else FirstViewBox(s, from + 1)
  }

  /** `contents.match(...)[0]`: the first match, which runs from its start to the
      next quote; nothing when there is no match. */
  function ViewBoxValue(contents: string): (r: Option<string>)
    ensures r.None? <==> forall p :: !ViewBoxAt(contents, p)
    ensures r.Some? ==> |r.value| >= 1 && forall k :: 0 <= k < |r.value| ==> !IsQuote(r.value[k])
  {
    match FirstViewBox(contents, 0)
    case None => None
    case Some(p) =>
      var q := QuoteEnd(contents, p);
      assert forall k :: 0 <= k < q - p ==> contents[p..q][k] == contents[p + k];
      Some(contents[p..q])
  }

  /** An attribute `viewBox=` followed by a quoted value: when nothing before it
      matches, the value between the quotes is recorded, whichever quotes enclose
      it. */
  lemma ViewBoxOfAttribute(pre: string, attr: string, open: char, value: string, close: char, post: string)
    requires |attr| == 8 && MatchCiAt(attr, 0, "viewbox=")
    requires IsQuote(open) && IsQuote(close)
    requires |value| >= 1 && forall k :: 0 <= k < |value| ==> !IsQuote(value[k])
    requires forall p: nat :: p <= |pre| + 8 ==> !ViewBoxAt(pre + attr + [open] + value + [close] + post, p)
    ensures ViewBoxValue(pre + attr + [open] + value + [close] + post) == Some(value)
  {
    var s := pre + attr + [open] + value + [close] + post;
    var p := |pre| + 9;
    assert forall k :: 0 <= k < 8 ==> s[|pre| + k] == attr[k];
    assert s[p - 1] == open && s[p] == value[0];
    assert ViewBoxAt(s, p);
    var r := FirstViewBox(s, 0);
    assert r == Some(p);
    assert forall k :: p <= k < p + |value| ==> s[k] == value[k - p];
    assert s[p + |value|] == close;
    assert QuoteEnd(s, p) == p + |value| by {
      QuoteEndAt(s, p, p + |value|);
    }
    assert s == (pre + attr + [open]) + value + ([close] + post);
    MiddleOfConcat(pre + attr + [open], value, [close] + post);
  }

  /** `QuoteEnd` is the first quote. */
  lemma QuoteEndAt(s: string, p: nat, q: nat)
    requires p <= q < |s| && IsQuote(s[q])
    requires forall k :: p <= k < q ==> !IsQuote(s[k])
    ensures QuoteEnd(s, p) == q
  {
  }

  // ---------------------------------------------------------------------------
  // The template rewrite /(?<=viewBoxes[^{]+){[^{}]+}/g

  /** `viewBoxes` at `j`, then one or more characters other than `{` up to `p`. */
  ghost predicate ViewBoxesGap(s: string, j: nat, p: nat) {
    j + 9 < p <= |s| && OccursAt(s, "viewBoxes", j) && forall k :: j + 9 <= k < p ==> s[k] != '{'
  }

  /** The lookbehind `(?<=viewBoxes[^{]+)` holds at `p`. */
  ghost predicate LookbehindAt(s: string, p: nat) {
    exists j :: ViewBoxesGap(s, j, p)
  }

  /** Whether some start `j' <= j` gives the lookbehind, scanning down from `j`
      and giving up at the first `{`. */
  function ViewBoxesBefore(s: string, p: nat, j: nat): bool
    requires j + 9 < p <= |s|
    decreases j
  {
    if OccursAt(s, "viewBoxes", j) then true
    else if j == 0 || s[j + 8] == '{' then false
    else ViewBoxesBefore(s, p, j - 1)
  }

  /** When the text from `j + 9` up to `p` holds no `{`, the scan answers whether
      some start at or below `j` gives the lookbehind. */
  lemma {:induction false} ViewBoxesBeforeMeaning(s: string, p: nat, j: nat)
    requires j + 9 < p <= |s|
    requires forall k :: j + 9 <= k < p ==> s[k] != '{'
    decreases j
    ensures ViewBoxesBefore(s, p, j) <==> exists j': nat :: j' <= j && ViewBoxesGap(s, j', p)
  {
    if OccursAt(s, "viewBoxes", j) {
      assert ViewBoxesGap(s, j, p);
    } else if j == 0 {
    } else if s[j + 8] == '{' {
      forall j': nat | j' < j
        ensures !ViewBoxesGap(s, j', p)
      {
        assert j' + 9 <= j + 8 < p;
      }
    } else {
      ViewBoxesBeforeMeaning(s, p, j - 1);
    }
  }

  /** The lookbehind as the scan evaluates it. */
  function Lookbehind(s: string, p: nat): bool
    requires p <= |s|
  {
    if p < 10 || s[p - 1] == '{' then false
    else ViewBoxesBefore(s, p, p - 10)
  }

  /** The scan's lookbehind holds exactly where the pattern's does. */
  lemma LookbehindMeaning(s: string, p: nat)
    requires p <= |s|
    ensures Lookbehind(s, p) <==> LookbehindAt(s, p)
  {
    if p >= 10 {
      if s[p - 1] == '{' {
        assert forall j: nat :: !ViewBoxesGap(s, j, p);
      } else {
        ViewBoxesBeforeMeaning(s, p, p - 10);
      }
    }
  }

  predicate IsBrace(c: char) {
    c == '{' || c == '}'
  }

  /** The first brace at or after `i`, or the end of the text. */
  function BraceEnd(s: string, i: nat): (q: nat)
    requires i <= |s|
    decreases |s| - i
    ensures i <= q <= |s|
    ensures forall k :: i <= k < q ==> !IsBrace(s[k])
    ensures q < |s| ==> IsBrace(s[q])
  {
    if i == |s| || IsBrace(s[i]) then i else BraceEnd(s, i + 1)
  }

  /** `{[^{}]+}` matching `s[p..q + 1]`. */
  ghost predicate BlockSpan(s: string, p: nat, q: nat) {
    p + 1 < q < |s| && s[p] == '{' && s[q] == '}' && forall k :: p < k < q ==> !IsBrace(s[k])
  }

  /** Whether a block starts at `p`, and where it ends: the greedy `[^{}]+` stops
      at the first brace, which must be a `}` past at least one character. */
  function BlockEnd(s: string, p: nat): (r: Option<nat>)
    requires p < |s|
    ensures r.Some? ==> p + 1 < r.value < |s|
  {
    if s[p] != '{' then None
    else
      var q := BraceEnd(s, p + 1);
      if q > p + 1 && q < |s| && s[q] == '}' then Some(q) else None
  }

  /** The scan finds a block at `p` exactly when `{[^{}]+}` matches there. */
  lemma BlockEndMeaning(s: string, p: nat)
    requires p < |s|
    ensures BlockEnd(s, p).Some? ==> BlockSpan(s, p, BlockEnd(s, p).value)
    ensures BlockEnd(s, p).None? ==> forall q :: !BlockSpan(s, p, q)
  {
  }

  /** A match of the whole pattern at `p`, ending at `q`. */
  ghost predicate MatchSpan(s: string, p: nat, q: nat) {
    LookbehindAt(s, p) && BlockSpan(s, p, q)
  }

  /** The match at `p`, if any, as the scan finds it. */
  function MatchEnd(s: string, p: nat): (r: Option<nat>)
    requires p < |s|
    ensures r.Some? ==> p < r.value < |s|
  {
    if Lookbehind(s, p) then BlockEnd(s, p) else None
  }

  /** The scan finds a match at `p` exactly when the pattern matches there, and
      finds where it ends. */
  lemma MatchEndMeaning(s: string, p: nat)
    requires p < |s|
    ensures MatchEnd(s, p).Some? ==> MatchSpan(s, p, MatchEnd(s, p).value)
    ensures MatchEnd(s, p).None? ==> forall q :: !MatchSpan(s, p, q)
  {
    LookbehindMeaning(s, p);
    BlockEndMeaning(s, p);
  }

  /** The global replace from `p` on: at each position either a match, replaced
      by the expanded replacement and skipped over, or a character kept as it
      is. The lookbehind always sees the whole original text. */
  function RewriteFrom(s: string, json: string, p: nat): string
    requires p <= |s|
    decreases |s| - p
  {
    if p == |s| then ""
    else
      var m := MatchEnd(s, p);
      if m.Some? then Substitute(json, s[p..m.value + 1], s[..p], s[m.value + 1..]) + RewriteFrom(s, json, m.value + 1)
      else [s[p]] + RewriteFrom(s, json, p + 1)
  }

  /** `templateContents.replace(regex, viewBoxesJSON)`. */
  function RewriteTemplate(s: string, json: string): string {
    RewriteFrom(s, json, 0)
  }

  /** Where the scan finds no match the character is kept. */
  lemma ScanKeeps(s: string, json: string, p: nat)
    requires p < |s| && MatchEnd(s, p).None?
    ensures RewriteFrom(s, json, p) == [s[p]] + RewriteFrom(s, json, p + 1)
  {
  }

  /** A character where the pattern does not match is kept, and the replace
      goes on with the next one. */
  lemma RewriteFromKeeps(s: string, json: string, p: nat)
    requires p < |s| && forall q :: !MatchSpan(s, p, q)
    ensures RewriteFrom(s, json, p) == [s[p]] + RewriteFrom(s, json, p + 1)
  {
    MatchEndMeaning(s, p);
    ScanKeeps(s, json, p);
  }

  /** Text with no match from `p` to `p2` is copied as it is. */
  lemma {:induction false} RewriteFromSkips(s: string, json: string, p: nat, p2: nat)
    requires p <= p2 <= |s|
    requires forall i :: p <= i < p2 ==> MatchEnd(s, i).None?
    decreases p2 - p
    ensures RewriteFrom(s, json, p) == s[p..p2] + RewriteFrom(s, json, p2)
  {
    if p < p2 {
      RewriteFromSkips(s, json, p + 1, p2);
      ScanKeeps(s, json, p);
      ConsSlice(s, p, p2, RewriteFrom(s, json, p2));
    }
  }

  lemma ConsSlice(s: string, p: nat, p2: nat, t: string)
    requires p < p2 <= |s|
    ensures [s[p]] + (s[p + 1..p2] + t) == s[p..p2] + t
  {
    assert [s[p]] + s[p + 1..p2] == s[p..p2];
  }

  /** Where the pattern does not match, the scan finds nothing. */
  lemma NoMatchFound(s: string, lo: nat, hi: nat)
    requires hi <= |s|
    requires forall i: nat, q: nat :: lo <= i < hi ==> !MatchSpan(s, i, q)
    ensures forall i :: lo <= i < hi ==> MatchEnd(s, i).None?
  {
    forall i | lo <= i < hi
      ensures MatchEnd(s, i).None?
    {
      MatchEndMeaning(s, i);
    }
  }

  /** A template with no match is written back unchanged. */
  lemma TemplateWithoutBlock(s: string, json: string)
    requires forall i: nat, q: nat :: !MatchSpan(s, i, q)
    ensures RewriteTemplate(s, json) == s
  {
    NoMatchFound(s, 0, |s|);
    RewriteFromSkips(s, json, 0, |s|);
    assert s[0..|s|] == s;
  }

  /** An empty block `{}` is never a match, whatever precedes it. */
  lemma EmptyBlockNeverMatched(s: string, p: nat)
    requires p + 1 < |s| && s[p] == '{' && s[p + 1] == '}'
    ensures forall q :: !MatchSpan(s, p, q)
  {
    assert forall q :: BlockSpan(s, p, q) ==> !IsBrace(s[p + 1]);
  }

  /** With one matching block and a replacement without `$`, exactly that block
      is replaced and every other character is kept. */
  lemma SingleBlockRewrite(s: string, json: string, p: nat, q: nat)
    requires MatchSpan(s, p, q)
    requires forall i: nat, q': nat :: i < p ==> !MatchSpan(s, i, q')
    requires forall i: nat, q': nat :: q < i ==> !MatchSpan(s, i, q')
    requires '$' !in json
    ensures RewriteTemplate(s, json) == s[..p] + json + s[q + 1..]
  {
    NoMatchFound(s, 0, p);
    NoMatchFound(s, q + 1, |s|);
    RewriteAtMatch(s, json, p, q);
    SingleMatchScan(s, json, p, q);
  }

  /** The scan over a text where it finds exactly one match. */
  lemma SingleMatchScan(s: string, json: string, p: nat, q: nat)
    requires p < q < |s|
    requires forall i :: 0 <= i < p ==> MatchEnd(s, i).None?
    requires forall i :: q + 1 <= i < |s| ==> MatchEnd(s, i).None?
    requires RewriteFrom(s, json, p) == json + RewriteFrom(s, json, q + 1)
    ensures RewriteTemplate(s, json) == s[..p] + json + s[q + 1..]
  {
    RewriteFromSkips(s, json, 0, p);
    RewriteFromSkips(s, json, q + 1, |s|);
    calc {
      RewriteTemplate(s, json);
      s[0..p] + RewriteFrom(s, json, p);
      s[0..p] + (json + RewriteFrom(s, json, q + 1));
      s[0..p] + (json + (s[q + 1..|s|] + RewriteFrom(s, json, |s|)));
      { assert RewriteFrom(s, json, |s|) == ""; assert s[q + 1..|s|] + "" == s[q + 1..]; }
      s[0..p] + (json + s[q + 1..]);
      { assert s[0..p] == s[..p]; }
      s[..p] + json + s[q + 1..];
    }
  }

  /** At a match, with a replacement without `$`, the JSON text is written in
      place of the block and the replace resumes after it. */
  lemma RewriteAtMatch(s: string, json: string, p: nat, q: nat)
    requires MatchSpan(s, p, q)
    requires '$' !in json
    ensures RewriteFrom(s, json, p) == json + RewriteFrom(s, json, q + 1)
  {
    RewriteAtMatchStep(s, json, p, q);
  }

  /** At a match the replacement, with its `$` patterns expanded against the
      matched block and the text around it, is written in place of the block
      and the replace resumes after it. */
  lemma RewriteAtMatchStep(s: string, json: string, p: nat, q: nat)
    requires MatchSpan(s, p, q)
    ensures RewriteFrom(s, json, p) == Substitute(json, s[p..q + 1], s[..p], s[q + 1..]) + RewriteFrom(s, json, q + 1)
  {
    MatchEndAt(s, p, q);
    ScanReplaces(s, json, p, q);
  }

  /** The scan finds the match the pattern describes, ending where it ends. */
  lemma MatchEndAt(s: string, p: nat, q: nat)
    requires MatchSpan(s, p, q)
    ensures MatchEnd(s, p) == Some(q)
  {
    MatchEndMeaning(s, p);
    var r := MatchEnd(s, p);
    assert r.Some?;
    assert r.value == q by {
      assert BlockSpan(s, p, r.value) && BlockSpan(s, p, q);
      if r.value < q { assert IsBrace(s[r.value]); }
      if q < r.value { assert IsBrace(s[q]); }
    }
  }

  lemma ScanReplaces(s: string, json: string, p: nat, q: nat)
    requires p < |s| && MatchEnd(s, p) == Some(q)
    ensures RewriteFrom(s, json, p) == Substitute(json, s[p..q + 1], s[..p], s[q + 1..]) + RewriteFrom(s, json, q + 1)
  {
  }

  /** Once the map written is empty (`{}`), the block it left behind is never
      matched again: a later run keeps everything up to and including it. */
  lemma EmptyMapBlockKept(pre: string, post: string, json: string)
    requires forall i: nat, q: nat :: i < |pre| ==> !MatchSpan(pre + "{}" + post, i, q)
    ensures var t := pre + "{}" + post;
      RewriteTemplate(t, json) == pre + "{}" + RewriteFrom(t, json, |pre| + 2)
  {
    var t := pre + "{}" + post;
    assert t[|pre|] == '{' && t[|pre| + 1] == '}';
    EmptyBlockNeverMatched(t, |pre|);
    NoMatchFound(t, 0, |pre| + 1);
    MatchEndMeaning(t, |pre| + 1);
    assert t[|pre| + 1] == '}';
    RewriteFromSkips(t, json, 0, |pre| + 2);
    assert t[0..|pre| + 2] == pre + "{}";
  }
}
