/** The plugin-header parser and the document driver: the `Plugin` and
    `Vrscene` records and the loop that fills a scene. */
module Scene {
  import opened Wrappers
  import opened Lexical
  import opened Leaves

  /** `struct Plugin`; the source's field `type` is `typeName` here. */
  datatype Plugin = Plugin(name: Identifier, typeName: Identifier)

  /** `struct Vrscene`: the three vectors the driver appends to. */
  datatype Vrscene = Vrscene(includes: seq<Include>, comments: seq<Comment>, plugins: seq<Plugin>)

  const EmptyScene := Vrscene([], [], [])

  /** `parse_plugin` as written: with no `}` after the name, `find` yields
      `npos`, `npos + 1` wraps to 0, and the plugin is reported with the cursor
      left just after its name. */
  ghost function PluginOfAsWritten(s: string): (r: Parsed<Plugin>)
    ensures var ty := IdentifierOf(s);
      r.result.Some? <==> ty.result.Some? && IdentifierOf(ty.rest).result.Some?
    ensures Find(IdentifierOf(IdentifierOf(s).rest).rest, '}', 0).Some? ==> r == PluginOf(s)
  {
    var ty := IdentifierOf(s);
    var nm := IdentifierOf(ty.rest);
    if !(ty.result.Some? && nm.result.Some?) then Parsed(None, nm.rest)
    else match Find(nm.rest, '}', 0)
      case None => Parsed(Some(Plugin(nm.result.value, ty.result.value)), nm.rest)
      case Some(end) => Parsed(Some(Plugin(nm.result.value, ty.result.value)), nm.rest[end + 1..])
  }

  /** A plugin header: a type identifier, then a name identifier, then
      everything up to and including the first `}`. No match when either
      identifier is missing or no `}` follows; the cursor is then left after
      whatever the two identifier attempts consumed. */
  ghost function PluginOf(s: string): (p: Parsed<Plugin>)
    ensures |p.rest| <= |s|
    ensures p.result.Some? ==> |p.rest| < |s|
  {
    var ty := IdentifierOf(s);
    var nm := IdentifierOf(ty.rest);
    if !(ty.result.Some? && nm.result.Some?) then Parsed(None, nm.rest)
    else match Find(nm.rest, '}', 0)
      case None => Parsed(None, nm.rest)
      case Some(end) => Parsed(Some(Plugin(nm.result.value, ty.result.value)), nm.rest[end + 1..])
  }

  /** The plugin is found exactly when a type and then a name identifier are
      read and a `}` follows; it carries them as `typeName` and `name`, and the
      cursor is just past the first `}`. When the type is missing only leading
      whitespace is gone; when the name or the `}` is missing the cursor is
      where the name attempt left it. */
  lemma PluginOfShape(s: string)
    ensures var p, ty := PluginOf(s), IdentifierOf(s);
      var nm := IdentifierOf(ty.rest);
      && (p.result.Some? <==> ty.result.Some? && nm.result.Some? && '}' in nm.rest)
      && (ty.result.None? ==> p.rest == TrimmedLeading(s))
      && (ty.result.Some? && p.result.None? ==> p.rest == nm.rest)
      && (p.result.Some? ==>
            var e := |nm.rest| - |p.rest| - 1;
            && p.result.value == Plugin(nm.result.value, ty.result.value)
            && 0 <= e && nm.rest[e] == '}' && p.rest == nm.rest[e + 1..]
            && (forall i :: 0 <= i < e ==> nm.rest[i] != '}'))
  {
    var ty := IdentifierOf(s);
    if ty.result.None? {
      IdentifierOfShape(s);
      IdentifierOfShape(ty.rest);
      TrimmedLeadingUnique(ty.rest, 0);
    }
  }

  lemma ExampleIdentifiers()
    ensures IsIdentifier("TexChecker") && IsIdentifier("tex01")
  {
    assert IsAlpha('T') && IsAlpha('t');
    assert forall k :: 0 <= k < 10 ==> !IsIdentifierEnd("TexChecker"[k]);
    assert forall k :: 0 <= k < 5 ==> !IsIdentifierEnd("tex01"[k]);
  }

  /** The two identifiers of the line `TexChecker tex01`, the second ended by
      the newline. */
  lemma HeaderWithoutBlock()
    ensures var ty := IdentifierOf("TexChecker tex01\n");
      && ty == Parsed(Some("TexChecker"), " tex01\n")
      && IdentifierOf(ty.rest) == Parsed(Some("tex01"), "\n")
  {
    ExampleIdentifiers();
    assert "TexChecker tex01\n" == [] + "TexChecker" + " tex01\n";
    IdentifierOfJoin([], "TexChecker", " tex01\n");
    assert " tex01\n" == " " + "tex01" + "\n";
    IdentifierOfJoin(" ", "tex01", "\n");
  }

  /** As written, a plugin header with no block at all is accepted, with the
      cursor left at the newline after the name. */
  lemma MissingBraceAsWritten()
    ensures PluginOfAsWritten("TexChecker tex01\n") == Parsed(Some(Plugin("tex01", "TexChecker")), "\n")
  {
    HeaderWithoutBlock();
    assert Find("\n", '}', 0) == None;
  }

  /** The corrected header parser rejects the same text. */
  lemma MissingBraceFails()
    ensures PluginOf("TexChecker tex01\n").result == None
  {
    HeaderWithoutBlock();
    assert Find("\n", '}', 0) == None;
  }

  /** `parse_plugin`. Both identifiers are always attempted, as in the source;
      the position of `{` that the source computes is never used. */
  method ParsePlugin(s: string) returns (r: Maybe<Plugin>, rest: string)
    ensures Parsed(r, rest) == PluginOf(s)
  {
    var ty, name;
    ty, rest := ParseIdentifier(s);
    name, rest := ParseIdentifier(rest);
    if !(ty.Some? && name.Some?) {
      return None, rest;
    }
    var end := Find(rest, '}', 0);
    if end.None? {
      return None, rest;
    }
    r, rest := Some(Plugin(name.value, ty.value)), rest[end.value + 1..];
  }

  /** A header `type name {body}` whose body holds no `}` reads back the
      plugin, with the cursor just past the `}`. */
  lemma PluginOfJoin(p: Plugin, body: string, rest: string)
    requires IsIdentifier(p.typeName) && IsIdentifier(p.name) && '}' !in body
    ensures PluginOf(p.typeName + " " + p.name + " {" + body + "}" + rest) == Parsed(Some(p), rest)
  {
    var block := " {" + body + "}" + rest;
    var afterType := " " + p.name + block;
    assert p.typeName + " " + p.name + " {" + body + "}" + rest == [] + p.typeName + afterType;
    IdentifierOfJoin([], p.typeName, afterType);
    IdentifierOfJoin(" ", p.name, block);
    BlockEnd(body, rest);
  }

  /** A header `type name` with no `}` anywhere after it is no plugin; the
      cursor is left right after the name. */
  lemma HeaderPluginFails(p: Plugin, tail: string)
    requires IsIdentifier(p.typeName) && IsIdentifier(p.name) && '}' !in tail
    requires tail == [] || IsIdentifierEnd(tail[0])
    ensures PluginOf(p.typeName + " " + p.name + tail) == Parsed(None, tail)
  {
    var afterType := " " + p.name + tail;
    assert p.typeName + " " + p.name + tail == [] + p.typeName + afterType;
    IdentifierOfJoin([], p.typeName, afterType);
    IdentifierOfJoin(" ", p.name, tail);
    assert Find(tail, '}', 0) == None;
  }

  /** The first `}` of a block whose body holds none is the closing one. */
  lemma BlockEnd(body: string, rest: string)
    requires '}' !in body
    ensures var block := " {" + body + "}" + rest;
      Find(block, '}', 0) == Some(|body| + 2) && block[|body| + 3..] == rest
  {
    var block := " {" + body + "}" + rest;
    assert block[|body| + 2] == '}';
    assert forall i :: 2 <= i < |body| + 2 ==> block[i] == body[i - 2];
  }

  /** One production recognised by the driver, in the order found. */
  datatype Item = CommentItem(text: Comment) | IncludeItem(file: Include) | PluginItem(plugin: Plugin)

  /** One iteration of the driver loop: try a comment, then an include, then a
      plugin, each starting where the previous attempt left the cursor; on a
      match, the item and the cursor with leading whitespace trimmed. */
  ghost function Step(source: string): (r: Maybe<(Item, string)>)
    ensures r.Some? ==> |r.value.1| < |source|
  {
    var c := CommentOf(source);
    if c.result.Some? then Some((CommentItem(c.result.value), TrimmedLeading(c.rest)))
    else
      var i := IncludeOf(c.rest);
      if i.result.Some? then Some((IncludeItem(i.result.value), TrimmedLeading(i.rest)))
      else
        var p := PluginOf(i.rest);
        if p.result.Some? then Some((PluginItem(p.result.value), TrimmedLeading(p.rest)))
        else None
  }

  /** The number of productions a scene holds. */
  function Count(v: Vrscene): nat {
    |v.includes| + |v.comments| + |v.plugins|
  }

  /** `push_back` of the item onto the vector of its kind: every vector keeps
      what it held, and the scene holds exactly one production more. */
  function Add(v: Vrscene, x: Item): (r: Vrscene)
    ensures v.includes <= r.includes && v.comments <= r.comments && v.plugins <= r.plugins
    ensures Count(r) == Count(v) + 1
  {
    match x
    case CommentItem(c) => v.(comments := v.comments + [c])
    case IncludeItem(f) => v.(includes := v.includes + [f])
    case PluginItem(p) => v.(plugins := v.plugins + [p])
  }

  /** The driver loop from cursor `source` with the scene built so far. */
  ghost function SceneLoop(source: string, acc: Vrscene): (r: Maybe<Vrscene>)
    decreases |source|
    ensures r.Some? ==> acc.includes <= r.value.includes && acc.comments <= r.value.comments
    ensures r.Some? ==> acc.plugins <= r.value.plugins
    ensures r.Some? ==> Count(r.value) <= Count(acc) + |source|
  {
    if source == [] then Some(acc)
    else match Step(source)
      case None => None
      case Some((x, rest)) => SceneLoop(rest, Add(acc, x))
  }

  /** The scene `parse_vrscene` returns for `src`. */
  ghost function SceneOf(src: string): (r: Maybe<Vrscene>)
    ensures r.Some? ==> Count(r.value) <= |src|
  {
    SceneLoop(src, EmptyScene)
  }

  /** The productions the driver recognises in `source`, in input order; no
      sequence when some iteration matches nothing. */
  ghost function Items(source: string): Maybe<seq<Item>>
    decreases |source|
  {
    if source == [] then Some([])
    else match Step(source)
      case None => None
      case Some((x, rest)) =>
        match Items(rest)
        case None => None
        case Some(xs) => Some([x] + xs)
  }

  function Comments(xs: seq<Item>): seq<Comment> {
    if xs == [] then []
    else (if xs[0].CommentItem? then [xs[0].text] else []) + Comments(xs[1..])
  }

  function Includes(xs: seq<Item>): seq<Include> {
    if xs == [] then []
    else (if xs[0].IncludeItem? then [xs[0].file] else []) + Includes(xs[1..])
  }

  function Plugins(xs: seq<Item>): seq<Plugin> {
    if xs == [] then []
    else (if xs[0].PluginItem? then [xs[0].plugin] else []) + Plugins(xs[1..])
  }

  /** Every item lands in exactly one of the three vectors. */
  lemma {:induction false} ProjectionsPartition(xs: seq<Item>)
    ensures |Includes(xs)| + |Comments(xs)| + |Plugins(xs)| == |xs|
  {
    if xs != [] {
      ProjectionsPartition(xs[1..]);
    }
  }

  /** The loop extends each vector of the scene so far with the items of its
      kind, in input order; it fails, with no scene at all, exactly when some
      iteration matches nothing. */
  lemma {:induction false} SceneLoopProjects(source: string, acc: Vrscene)
    decreases |source|
    ensures SceneLoop(source, acc) ==
      match Items(source)
      case None => None
      case Some(xs) => Some(Vrscene(acc.includes + Includes(xs), acc.comments + Comments(xs), acc.plugins + Plugins(xs)))
  {
    if source == [] {
      assert acc.includes + [] == acc.includes && acc.comments + [] == acc.comments;
      assert acc.plugins + [] == acc.plugins;
    } else {
      match Step(source)
      case None =>
      case Some((x, rest)) =>
        SceneLoopProjects(rest, Add(acc, x));
        match Items(rest)
        case None =>
        case Some(xs) => AddProjects(acc, x, xs);
    }
  }

  /** Appending one item, then the projections of the rest, is appending the
      projections of the whole. */
  lemma AddProjects(acc: Vrscene, x: Item, xs: seq<Item>)
    ensures var a, ys := Add(acc, x), [x] + xs;
      Vrscene(a.includes + Includes(xs), a.comments + Comments(xs), a.plugins + Plugins(xs)) ==
      Vrscene(acc.includes + Includes(ys), acc.comments + Comments(ys), acc.plugins + Plugins(ys))
  {
    var ys := [x] + xs;
    assert ys[0] == x && ys[1..] == xs;
    var a := Add(acc, x);
    assert acc.includes + Includes(ys) == a.includes + Includes(xs);
    assert acc.comments + Comments(ys) == a.comments + Comments(xs);
    assert acc.plugins + Plugins(ys) == a.plugins + Plugins(xs);
  }

  /** The scene's vectors are the comments, includes and plugins of the input,
      each in input order; the parse fails exactly when some iteration matches
      nothing. */
  lemma SceneOfProjects(src: string)
    ensures SceneOf(src) ==
      match Items(src)
      case None => None
      case Some(xs) => Some(Vrscene(Includes(xs), Comments(xs), Plugins(xs)))
  {
    SceneLoopProjects(src, EmptyScene);
    match Items(src)
    case None =>
    case Some(xs) =>
      assert EmptyScene.includes + Includes(xs) == Includes(xs);
      assert EmptyScene.comments + Comments(xs) == Comments(xs);
      assert EmptyScene.plugins + Plugins(xs) == Plugins(xs);
  }

  /** Once an iteration matches nothing, the parse fails whatever was gathered
      before: no partial scene is returned. */
  lemma NoMatchFails(source: string, acc: Vrscene)
    requires source != [] && Step(source).None?
    ensures SceneLoop(source, acc) == None
  {
  }

  /** Empty input gives a scene with three empty vectors. */
  lemma EmptyInput()
    ensures SceneOf("") == Some(EmptyScene)
  {
  }

  /** Input made only of whitespace, and not empty, matches no production: the
      identifier parser finds nothing once the whitespace is trimmed. */
  lemma WhitespaceOnlyFails(src: string)
    requires src != [] && AllSpace(src)
    ensures SceneOf(src) == None
  {
    TrimmedLeadingUnique(src, |src|);
    TrimmedLeadingUnique([], 0);
  }

  predicate WellFormedItem(x: Item) {
    match x
    case CommentItem(c) => IsCommentText(c)
    case IncludeItem(f) => '"' !in f
    case PluginItem(p) => IsIdentifier(p.name) && IsIdentifier(p.typeName)
  }

  predicate WellFormedScene(v: Vrscene) {
    && (forall i :: 0 <= i < |v.comments| ==> IsCommentText(v.comments[i]))
    && (forall i :: 0 <= i < |v.includes| ==> '"' !in v.includes[i])
    && (forall i :: 0 <= i < |v.plugins| ==> IsIdentifier(v.plugins[i].name) && IsIdentifier(v.plugins[i].typeName))
  }

  /** Each recognised item is well formed: a comment as `parse_comment`
      promises, an include without `"`, a plugin with identifier name and type. */
  lemma StepWellFormed(source: string)
    requires Step(source).Some?
    ensures WellFormedItem(Step(source).value.0)
  {
    var c := CommentOf(source);
    CommentOfShape(source);
    if c.result.None? {
      var i := IncludeOf(c.rest);
      IncludeOfShape(c.rest);
      if i.result.None? {
        PluginOfShape(i.rest);
        var ty := IdentifierOf(i.rest);
        IdentifierOfShape(i.rest);
        IdentifierOfShape(ty.rest);
      }
    }
  }

  lemma {:induction false} SceneLoopWellFormed(source: string, acc: Vrscene)
    requires WellFormedScene(acc)
    decreases |source|
    ensures SceneLoop(source, acc).Some? ==> WellFormedScene(SceneLoop(source, acc).value)
  {
    if source != [] {
      match Step(source)
      case None =>
      case Some((x, rest)) =>
        StepWellFormed(source);
        SceneLoopWellFormed(rest, Add(acc, x));
    }
  }

  /** Every comment, include and plugin of a parsed scene is well formed. */
  lemma SceneOfWellFormed(src: string)
    ensures SceneOf(src).Some? ==> WellFormedScene(SceneOf(src).value)
  {
    SceneLoopWellFormed(src, EmptyScene);
  }

  /** `parse_vrscene`: the driver loop over a local cursor, appending each
      production to the vector of its kind, and failing as soon as an iteration
      matches nothing. */
  method ParseVrscene(src: string) returns (r: Maybe<Vrscene>)
    ensures r == SceneOf(src)
  {
    var source := src;
    var scene := EmptyScene;
    while source != []
      invariant SceneLoop(source, scene) == SceneOf(src)
      decreases |source|
    {
      ghost var before := source;
      var comment, directive, plugin;
      comment, source := ParseComment(source);
      if comment.Some? {
        scene := scene.(comments := scene.comments + [comment.value]);
      } else {
        directive, source := ParseInclude(source);
        if directive.Some? {
          scene := scene.(includes := scene.includes + [directive.value]);
        } else {
          plugin, source := ParsePlugin(source);
          if plugin.Some? {
            scene := scene.(plugins := scene.plugins + [plugin.value]);
          } else {
            assert Step(before).None?;
            return None;
          }
        }
      }
      source := TrimLeadingWhitespace(source);
      assert Step(before).Some? && Step(before).value.1 == source;
    }
    r := Some(scene);
  }
}
