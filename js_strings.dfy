/** The few JavaScript string operations the build scripts rely on, stated over
    `string` (a sequence of characters):
    - `s.indexOf(pat)` and `s.replace(pat, rep)` with a string pattern, which
      replaces the FIRST occurrence only and expands `$` patterns in `rep`;
    - `parts.join(sep)`;
    - the ASCII case folding a regular expression with the `i` flag (and no
      `u` flag) performs. */
module JsStrings {

  datatype Option<T> = None | Some(value: T)

  /** True when `pat` occurs in `s` starting at index `i`. */
  predicate OccursAt(s: string, pat: string, i: nat) {
    i + |pat| <= |s| && s[i..i + |pat|] == pat
  }

  /** `s.indexOf(pat, from)`: the first index at or after `from` where `pat` occurs. */
  function IndexOf(s: string, pat: string, from: nat): (r: Option<nat>)
    decreases |s| - from
    ensures r.Some? ==> from <= r.value && OccursAt(s, pat, r.value)
    ensures r.Some? ==> forall j :: from <= j < r.value ==> !OccursAt(s, pat, j)
    ensures r.None? ==> forall j :: from <= j ==> !OccursAt(s, pat, j)
  {
    if from + |pat| > |s| then None
    else if s[from..from + |pat|] == pat then Some(from)
    else IndexOf(s, pat, from + 1)
  }

  /** The replacement text `GetSubstitution` builds from a replacement template
      when the pattern has no capture groups: `$$` gives `$`, `$&` the matched
      text, `` $` `` the text before the match, `$'` the text after it; every
      other `$` stands for itself. */
  function Substitute(template: string, matched: string, before: string, after: string): (r: string)
    decreases |template|
    ensures '$' !in template ==> r == template
  {
    if |template| == 0 then ""
    else if template[0] == '$' && |template| >= 2 && template[1] in {'$', '&', '`', '\''} then
      var expansion :=
        if template[1] == '$' then "$"
        else if template[1] == '&' then matched
        else if template[1] == '`' then before
        else after;
      expansion + Substitute(template[2..], matched, before, after)
    else
      [template[0]] + Substitute(template[1..], matched, before, after)
  }

  /** Template text without `$` is copied as it is, ahead of whatever the rest
      of the template expands to. */
  lemma {:induction false} SubstitutePlainPrefix(pre: string, rest: string, matched: string, before: string, after: string)
    requires '$' !in pre
    decreases |pre|
    ensures Substitute(pre + rest, matched, before, after) == pre + Substitute(rest, matched, before, after)
  {
    if |pre| > 0 {
      var t := pre + rest;
      assert t[0] == pre[0] != '$' && t[1..] == pre[1..] + rest;
      SubstitutePlainPrefix(pre[1..], rest, matched, before, after);
      calc {
        Substitute(t, matched, before, after);
        [pre[0]] + Substitute(pre[1..] + rest, matched, before, after);
        [pre[0]] + (pre[1..] + Substitute(rest, matched, before, after));
        { assert [pre[0]] + pre[1..] == pre; }
        pre + Substitute(rest, matched, before, after);
      }
    } else {
      assert pre + rest == rest;
    }
  }

  /** A template with one `$` pattern: `$$` becomes `$`, `$&` the matched text,
      `` $` `` the text before the match and `$'` the text after it; the rest of
      the template is kept. */
  lemma SubstituteOnePattern(pre: string, code: char, post: string, matched: string, before: string, after: string)
    requires '$' !in pre && '$' !in post
    ensures var r := Substitute(pre + ['$', code] + post, matched, before, after);
      (code == '$' ==> r == pre + "$" + post) &&
      (code == '&' ==> r == pre + matched + post) &&
      (code == '`' ==> r == pre + before + post) &&
      (code == '\'' ==> r == pre + after + post)
  {
    var t := ['$', code] + post;
    assert pre + ['$', code] + post == pre + t;
    SubstitutePlainPrefix(pre, t, matched, before, after);
    PatternFirst(code, post, matched, before, after);
    var e := Substitute(t, matched, before, after);
    assert Substitute(pre + ['$', code] + post, matched, before, after) == pre + e;
    assert forall x: string :: e == x + post ==> pre + e == pre + x + post;
  }

  /** A template that starts with a `$` pattern expands it, then the rest. */
  lemma PatternFirst(code: char, post: string, matched: string, before: string, after: string)
    requires '$' !in post
    ensures var r := Substitute(['$', code] + post, matched, before, after);
      (code == '$' ==> r == "$" + post) &&
      (code == '&' ==> r == matched + post) &&
      (code == '`' ==> r == before + post) &&
      (code == '\'' ==> r == after + post)
  {
    var t := ['$', code] + post;
    assert t[0] == '$' && t[1] == code && t[2..] == post;
  }

  /** `s.replace(pat, rep)` with a string pattern: only the first occurrence of
      `pat` is replaced. */
  function ReplaceFirst(s: string, pat: string, rep: string): string {
    match IndexOf(s, pat, 0)
    case None => s
    case Some(i) => s[..i] + Substitute(rep, pat, s[..i], s[i + |pat|..]) + s[i + |pat|..]
  }

  /** Replacing in a text where the pattern does not occur leaves it unchanged. */
  lemma ReplaceFirstAbsent(s: string, pat: string, rep: string)
    requires forall j :: !OccursAt(s, pat, j)
    ensures ReplaceFirst(s, pat, rep) == s
  {
  }

  /** Only the first occurrence is replaced: everything before it and everything
      after it, later occurrences included, is kept. */
  lemma ReplaceFirstOccurrence(s: string, pat: string, rep: string, i: nat)
    requires OccursAt(s, pat, i)
    requires forall j :: 0 <= j < i ==> !OccursAt(s, pat, j)
    requires '$' !in rep
    ensures ReplaceFirst(s, pat, rep) == s[..i] + rep + s[i + |pat|..]
  {
    var k := IndexOf(s, pat, 0);
    assert k.Some? && k.value == i;
  }

  /** A pattern that begins the text is the first occurrence. */
  lemma ReplaceFirstAtStart(s: string, pat: string, rest: string, rep: string)
    requires s == pat + rest
    requires '$' !in rep
    ensures ReplaceFirst(s, pat, rep) == rep + rest
  {
    assert OccursAt(s, pat, 0);
    ReplaceFirstOccurrence(s, pat, rep, 0);
    assert s[|pat|..] == rest;
  }

  /** `parts.join(sep)`. */
  function Join(parts: seq<string>, sep: string): (r: string)
    decreases |parts|
  {
    if |parts| == 0 then ""
    else if |parts| == 1 then parts[0]
    else parts[0] + sep + Join(parts[1..], sep)
  }

  /** Cutting a text at every `c`: the reference the joined lines are checked against. */
  function SplitOn(s: string, c: char): (r: seq<string>)
    decreases |s|
    ensures |r| >= 1
  {
    if |s| == 0 then [""]
    else
      var rest := SplitOn(s[1..], c);
      if s[0] == c then [""] + rest
      else [[s[0]] + rest[0]] + rest[1..]
  }

  lemma {:induction false} SplitOnNoSeparator(s: string, c: char)
    requires c !in s
    ensures SplitOn(s, c) == [s]
  {
    if |s| > 0 {
      SplitOnNoSeparator(s[1..], c);
      assert [s[0]] + s[1..] == s;
    }
  }

  lemma {:induction false} SplitOnAtFirst(a: string, c: char, b: string)
    requires c !in a
    ensures SplitOn(a + [c] + b, c) == [a] + SplitOn(b, c)
  {
    if |a| == 0 {
      assert a + [c] + b == [c] + b;
      assert ([c] + b)[1..] == b;
    } else {
      var s := a + [c] + b;
      assert s[1..] == a[1..] + [c] + b;
      SplitOnAtFirst(a[1..], c, b);
      assert [a[0]] + a[1..] == a;
    }
  }

  /** Joining with a one-character separator that no part contains is undone by
      cutting at that character: each part is exactly one piece of the result. */
  lemma {:induction false} JoinThenSplit(parts: seq<string>, c: char)
    requires |parts| >= 1
    requires forall k :: 0 <= k < |parts| ==> c !in parts[k]
    ensures SplitOn(Join(parts, [c]), c) == parts
  {
    if |parts| == 1 {
      SplitOnNoSeparator(parts[0], c);
    } else {
      JoinThenSplit(parts[1..], c);
      SplitOnAtFirst(parts[0], c, Join(parts[1..], [c]));
      assert [parts[0]] + parts[1..] == parts;
    }
  }

  /** The joined text starts with the first part and ends with the last one; with
      more than one part, the separator stands between them. */
  lemma {:induction false} JoinEnds(parts: seq<string>, sep: string)
    requires |parts| >= 1
    ensures var r := Join(parts, sep);
      |r| >= |parts[0]| && r[..|parts[0]|] == parts[0] &&
      |r| >= |parts[|parts| - 1]| && r[|r| - |parts[|parts| - 1]|..] == parts[|parts| - 1]
  {
    if |parts| > 1 {
      JoinEnds(parts[1..], sep);
      var r := Join(parts, sep);
      var t := Join(parts[1..], sep);
      assert r == parts[0] + sep + t;
      assert r[..|parts[0]|] == parts[0];
      assert parts[1..][|parts[1..]| - 1] == parts[|parts| - 1];
      assert r[|r| - |parts[|parts| - 1]|..] == t[|t| - |parts[|parts| - 1]|..];
    }
  }

  /** ASCII lower-casing: the only case folding a non-unicode `i` regex does
      (a character outside ASCII never matches an ASCII letter). */
  function LowerAscii(c: char): char {
    if 'A' <= c <= 'Z' then (c as int + 32) as char else c
  }

  /** Case-insensitive match of the lower-case literal `lit` at index `i` of `s`. */
  predicate MatchCiAt(s: string, i: nat, lit: string) {
    i + |lit| <= |s| && forall k :: 0 <= k < |lit| ==> LowerAscii(s[i + k]) == lit[k]
  }

  /** Where the literal holds a character other than a lower-case letter, the
      text holds exactly that character. */
  lemma MatchCiAtNonLetter(s: string, i: nat, lit: string, k: nat)
    requires MatchCiAt(s, i, lit) && k < |lit| && !('a' <= lit[k] <= 'z')
    ensures s[i + k] == lit[k]
  {
    assert LowerAscii(s[i + k]) == lit[k];
  }

  /** The middle piece of a three-piece text is found again where it was put. */
  lemma MiddleOfConcat(a: string, b: string, c: string)
    ensures (a + b + c)[|a|..|a| + |b|] == b
  {
    assert forall k :: 0 <= k < |b| ==> (a + b + c)[|a| + k] == b[k];
  }

  /** `s.endsWith(suffix)` with exact (case-sensitive) comparison. */
  predicate EndsWith(s: string, suffix: string) {
    |suffix| <= |s| && s[|s| - |suffix|..] == suffix
  }
}
