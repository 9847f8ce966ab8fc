/** The sprite build (scripts/sprite.js): every icon file found is named after
    its path and added to the sprite collection, its first viewBox is recorded
    under that name, the compiled sprite is wrapped and written out, and the
    icon template's `viewBoxes` block is replaced by the recorded map. File
    contents, the sprite compiler and `JSON.stringify` are parameters. */
module SpriteBuild {
  import opened JsStrings
  import opened SpriteText

  /** What `getSVGFileData` returns for a named icon. */
  datatype SvgData = SvgData(name: string, contents: string)

  /** `getSVGFileData(filePath)`: the icon's name and contents, or nothing when
      the path has no name. */
  function FileData(filePath: string, read: string -> string): Option<SvgData> {
    match IconName(filePath)
    case None => None
    case Some(name) => Some(SvgData(name, read(filePath)))
  }

  /** The one key a plain object does not store: assigning a string to
      `__proto__` leaves the object as it was. */
  const ProtoKey: string := "__proto__"

  /** `viewBoxes[name] = value` on a plain object. */
  function Record(m: map<string, string>, name: string, value: string): (r: map<string, string>)
    ensures name != ProtoKey ==> name in r && r[name] == value
    ensures forall k :: k in m && k != name ==> k in r && r[k] == m[k]
    ensures forall k :: k in r ==> k in m || (k == name && name != ProtoKey)
  {
    if name == ProtoKey then m else m[name := value]
  }

  /** The icons `getSVGPaths` adds to the sprite for `paths`, in order: every
      path with a name, with or without a viewBox. */
  function AddedIcons(paths: seq<string>, read: string -> string): seq<SvgData>
    decreases |paths|
  {
    if |paths| == 0 then []
    else
      var earlier := AddedIcons(paths[..|paths| - 1], read);
      match FileData(paths[|paths| - 1], read)
      case None => earlier
      case Some(d) => earlier + [d]
  }

  /** The map `getSVGPaths` builds for `paths`: each named icon with a viewBox
      records it under its name, later paths overwriting earlier ones. */
  function ViewBoxes(paths: seq<string>, read: string -> string): map<string, string>
    decreases |paths|
  {
    if |paths| == 0 then map[]
    else
      var earlier := ViewBoxes(paths[..|paths| - 1], read);
      match FileData(paths[|paths| - 1], read)
      case None => earlier
      case Some(d) =>
        match ViewBoxValue(d.contents)
        case None => earlier
        case Some(v) => Record(earlier, d.name, v)
  }

  /** Every path with a name is added to the sprite, with or without a viewBox. */
  lemma {:induction false} NamedPathIsAdded(paths: seq<string>, read: string -> string, j: nat)
    requires j < |paths| && FileData(paths[j], read).Some?
    decreases |paths|
    ensures FileData(paths[j], read).value in AddedIcons(paths, read)
  {
    var n := |paths| - 1;
    if j < n {
      var init := paths[..n];
      assert init[j] == paths[j];
      NamedPathIsAdded(init, read, j);
      AddedIconsGrow(paths, read);
    }
  }

  /** The sprite only ever receives the data of paths that have a name. */
  lemma {:induction false} AddedIconComesFromPath(paths: seq<string>, read: string -> string, d: SvgData) returns (j: nat)
    requires d in AddedIcons(paths, read)
    decreases |paths|
    ensures j < |paths| && FileData(paths[j], read) == Some(d)
  {
    var n := |paths| - 1;
    var init := paths[..n];
    var fd := FileData(paths[n], read);
    if d in AddedIcons(init, read) {
      j := AddedIconComesFromPath(init, read, d);
      assert init[j] == paths[j];
    } else {
      AddedIconsLast(paths, read);
      j := n;
    }
  }

  /** One more path adds at most its own data. */
  lemma AddedIconsLast(paths: seq<string>, read: string -> string)
    requires |paths| > 0
    ensures var fd := FileData(paths[|paths| - 1], read);
      AddedIcons(paths, read) == AddedIcons(paths[..|paths| - 1], read) + (if fd.Some? then [fd.value] else [])
  {
  }

  /** What was added for the earlier paths stays added. */
  lemma AddedIconsGrow(paths: seq<string>, read: string -> string)
    requires |paths| > 0
    ensures forall d :: d in AddedIcons(paths[..|paths| - 1], read) ==> d in AddedIcons(paths, read)
  {
    AddedIconsLast(paths, read);
  }

  /** Every key of the map is the name of an icon that was added, every value
      is a non-empty text without quotes, and `__proto__` is never a key. */
  lemma {:induction false} ViewBoxKeysAreAddedNames(paths: seq<string>, read: string -> string)
    decreases |paths|
    ensures forall k :: k in ViewBoxes(paths, read) ==>
      k != ProtoKey && exists d :: d in AddedIcons(paths, read) && d.name == k
    ensures forall k :: k in ViewBoxes(paths, read) ==>
      var v := ViewBoxes(paths, read)[k];
      |v| >= 1 && forall c :: 0 <= c < |v| ==> !IsQuote(v[c])
  {
    if |paths| > 0 {
      var init := paths[..|paths| - 1];
      ViewBoxKeysAreAddedNames(init, read);
      var earlier := AddedIcons(init, read);
      var fd := FileData(paths[|paths| - 1], read);
      if fd.Some? {
        assert AddedIcons(paths, read) == earlier + [fd.value];
        assert forall d :: d in earlier ==> d in AddedIcons(paths, read);
        assert fd.value in AddedIcons(paths, read);
      }
    }
  }

  /** The value recorded under a name is the viewBox of the last path with that
      name that has one. */
  lemma {:induction false} LastViewBoxWins(paths: seq<string>, read: string -> string, i: nat, d: SvgData, v: string)
    requires i < |paths|
    requires FileData(paths[i], read) == Some(d) && ViewBoxValue(d.contents) == Some(v)
    requires d.name != ProtoKey
    requires forall j :: i < j < |paths| && FileData(paths[j], read).Some? && FileData(paths[j], read).value.name == d.name ==>
      ViewBoxValue(FileData(paths[j], read).value.contents).None?
    decreases |paths|
    ensures d.name in ViewBoxes(paths, read) && ViewBoxes(paths, read)[d.name] == v
  {
    var init := paths[..|paths| - 1];
    if i < |paths| - 1 {
      assert forall j :: 0 <= j < |init| ==> init[j] == paths[j];
      LastViewBoxWins(init, read, i, d, v);
    }
  }

  /** An icon with a name but no viewBox is added to the sprite and leaves the
      map as it was. */
  lemma IconWithoutViewBox(paths: seq<string>, read: string -> string, path: string)
    requires FileData(path, read).Some? && ViewBoxValue(FileData(path, read).value.contents).None?
    ensures AddedIcons(paths + [path], read) == AddedIcons(paths, read) + [FileData(path, read).value]
    ensures ViewBoxes(paths + [path], read) == ViewBoxes(paths, read)
  {
    assert (paths + [path])[..|paths|] == paths;
  }

  const SpriteOpen: string := "<div class=\"sprite\">"
  const SpriteClose: string := "</div>"

  /** The sprite markup written to the sprite template. */
  function WrapSprite(svg: string): (html: string)
    ensures |html| == |SpriteOpen| + |svg| + |SpriteClose|
  {
    SpriteOpen + svg + SpriteClose
  }

  /** The compiled sprite inside the wrapper, if `html` is wrapped. */
  function UnwrapSprite(html: string): Option<string> {
    if |html| >= |SpriteOpen| + |SpriteClose|
      && html[..|SpriteOpen|] == SpriteOpen
      && html[|html| - |SpriteClose|..] == SpriteClose
    then Some(html[|SpriteOpen|..|html| - |SpriteClose|])
    else None
  }

  /** The wrapper adds exactly the container around the compiled sprite: taking
      it off gives the sprite back. */
  lemma UnwrapWrapSprite(svg: string)
    ensures UnwrapSprite(WrapSprite(svg)) == Some(svg)
  {
    var html := WrapSprite(svg);
    assert html[..|SpriteOpen|] == SpriteOpen;
    assert html[|html| - |SpriteClose|..] == SpriteClose;
    assert html[|SpriteOpen|..|html| - |SpriteClose|] == svg;
  }

  /** The files the sprite build writes: the sprite collection (`SPRITE`), the
      sprite template and the icon template. */
  class SpriteBuilder {
    var added: seq<SvgData>
    var spriteFile: Option<string>
    var template: string

    constructor (template: string)
      ensures added == [] && spriteFile == None && this.template == template
    {
      added := [];
      spriteFile := None;
      this.template := template;
    }

    /** `updateTemplateViewBox(viewBox)`: the template is rewritten with the
        map's JSON and written back, whether or not anything matched. */
    method UpdateTemplateViewBox(viewBox: map<string, string>, stringify: map<string, string> -> string)
      modifies this
      ensures template == RewriteTemplate(old(template), stringify(viewBox))
      ensures added == old(added) && spriteFile == old(spriteFile)
    {
      var viewBoxesJson := stringify(viewBox);
      var updatedTemplate := RewriteTemplate(template, viewBoxesJson);
      template := updatedTemplate;
    }

    /** `getSVGPaths()` over the paths the glob found: add every named icon,
        record the viewBoxes, write the wrapped sprite, rewrite the template. */
    method GetSvgPaths(matches: seq<string>, read: string -> string,
                       compileSprite: seq<SvgData> -> string, stringify: map<string, string> -> string)
      modifies this
      ensures added == old(added) + AddedIcons(matches, read)
      ensures spriteFile == Some(WrapSprite(compileSprite(added)))
      ensures template == RewriteTemplate(old(template), stringify(ViewBoxes(matches, read)))
    {
      var viewBoxes: map<string, string> := map[];
      var i := 0;
      while i < |matches|
        invariant 0 <= i <= |matches|
        invariant added == old(added) + AddedIcons(matches[..i], read)
        invariant viewBoxes == ViewBoxes(matches[..i], read)
        invariant template == old(template)
      {
        assert matches[..i + 1][..i] == matches[..i];
        var svgData := FileData(matches[i], read);
        if svgData.Some? {
          var viewBox := ViewBoxValue(svgData.value.contents);
          if viewBox.Some? {
            viewBoxes := Record(viewBoxes, svgData.value.name, viewBox.value);
          }
          added := added + [svgData.value];
        }
        i := i + 1;
      }
      assert matches[..|matches|] == matches;
      var svg := compileSprite(added);
      var spriteHtml := WrapSprite(svg);
      spriteFile := Some(spriteHtml);
      UpdateTemplateViewBox(viewBoxes, stringify);
    }
  }
}
