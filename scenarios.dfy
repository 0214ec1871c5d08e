/** Whole documents: the canonical text of a sequence of productions parses
    back to that sequence, and a few documents with the scene they give. */
module Scenarios {
  import opened Wrappers
  import opened Lexical
  import opened Leaves
  import opened Scene

  /** The canonical text of one production, ending with a newline. */
  function Render(x: Item): string {
    match x
    case CommentItem(c) => c + "\n"
    case IncludeItem(f) => "#include \"" + f + "\"\n"
    case PluginItem(p) => p.typeName + " " + p.name + " {}\n"
  }

  /** The canonical text of a sequence of productions, in order. */
  function RenderAll(xs: seq<Item>): string {
    if xs == [] then [] else Render(xs[0]) + RenderAll(xs[1..])
  }

  /** Canonical text never starts with whitespace. */
  lemma RenderAllStart(xs: seq<Item>)
    requires forall i :: 0 <= i < |xs| ==> WellFormedItem(xs[i])
    ensures RenderAll(xs) == [] || !IsSpace(RenderAll(xs)[0])
  {
    if xs != [] {
      assert WellFormedItem(xs[0]);
      match xs[0]
      case CommentItem(c) => assert RenderAll(xs)[0] == c[..2][0];
      case IncludeItem(f) =>
      case PluginItem(p) => assert RenderAll(xs)[0] == p.typeName[0];
    }
  }

  /** A cursor that opens with neither whitespace, `/` nor `#` is no comment
      and no include, and neither attempt moves it. */
  lemma NeitherCommentNorInclude(s: string)
    requires s != [] && !IsSpace(s[0]) && s[0] != '/' && s[0] != '#'
    ensures CommentOf(s) == Parsed(None, s)
    ensures IncludeOf(s) == Parsed(None, s)
  {
    TrimmedLeadingUnique(s, 0);
  }

  /** One driver iteration over the canonical text of a well-formed production
      recognises exactly that production and moves past its newline. */
  lemma StepRender(x: Item, more: string)
    requires WellFormedItem(x) && (more == [] || !IsSpace(more[0]))
    ensures Step(Render(x) + more) == Some((x, more))
  {
    TrimmedLeadingJoin("\n", more);
    match x
    case CommentItem(c) => StepRenderComment(c, more);
    case IncludeItem(f) => StepRenderInclude(f, more);
    case PluginItem(p) => StepRenderPlugin(p, more);
  }

  lemma StepRenderComment(c: string, more: string)
    requires IsCommentText(c) && TrimmedLeading("\n" + more) == more
    ensures Step(Render(CommentItem(c)) + more) == Some((CommentItem(c), more))
  {
    assert Render(CommentItem(c)) + more == c + ("\n" + more);
    CommentOfJoin(c, "\n" + more);
  }

  lemma StepRenderInclude(f: string, more: string)
    requires '"' !in f && TrimmedLeading("\n" + more) == more
    ensures Step(Render(IncludeItem(f)) + more) == Some((IncludeItem(f), more))
  {
    var s := Render(IncludeItem(f)) + more;
    assert s == "#include \"" + f + "\"" + ("\n" + more);
    TrimmedLeadingJoin([], s);
    assert s[0] == '#';
    assert CommentOf(s) == Parsed(None, s);
    IncludeOfJoin(f, "\n" + more);
  }

  lemma StepRenderPlugin(p: Plugin, more: string)
    requires IsIdentifier(p.typeName) && IsIdentifier(p.name) && TrimmedLeading("\n" + more) == more
    ensures Step(Render(PluginItem(p)) + more) == Some((PluginItem(p), more))
  {
    var s := Render(PluginItem(p)) + more;
    assert s == p.typeName + " " + p.name + " {" + [] + "}" + ("\n" + more);
    assert s[0] == p.typeName[0];
    LetterIsNoDelimiter(s[0]);
    NeitherCommentNorInclude(s);
    PluginOfJoin(p, [], "\n" + more);
  }

  /** The items of canonical text start with the production it renders. */
  lemma ItemsRender(x: Item, more: string, ys: seq<Item>)
    requires WellFormedItem(x) && (more == [] || !IsSpace(more[0]))
    requires Items(more) == Some(ys)
    ensures Items(Render(x) + more) == Some([x] + ys)
  {
    StepRender(x, more);
    assert Render(x) + more != [];
  }

  /** Parsing the canonical text of well-formed productions gives back exactly
      those productions, in order. */
  lemma {:induction false} ItemsRoundTrip(xs: seq<Item>)
    requires forall i :: 0 <= i < |xs| ==> WellFormedItem(xs[i])
    ensures Items(RenderAll(xs)) == Some(xs)
  {
    if xs != [] {
      var x, tail := xs[0], xs[1..];
      assert WellFormedItem(x);
      assert forall i :: 0 <= i < |tail| ==> WellFormedItem(tail[i]);
      RenderAllStart(tail);
      ItemsRoundTrip(tail);
      ItemsRender(x, RenderAll(tail), tail);
      assert [x] + tail == xs;
    }
  }

  /** The scene of a canonical document holds its comments, includes and
      plugins, each in the order they were written. */
  lemma SceneRoundTrip(xs: seq<Item>)
    requires forall i :: 0 <= i < |xs| ==> WellFormedItem(xs[i])
    ensures SceneOf(RenderAll(xs)) == Some(Vrscene(Includes(xs), Comments(xs), Plugins(xs)))
  {
    ItemsRoundTrip(xs);
    SceneOfProjects(RenderAll(xs));
  }

  /** A single plugin header with its block, at the end of the input. */
  lemma PluginAtEnd(p: Plugin, body: string)
    requires IsIdentifier(p.typeName) && IsIdentifier(p.name) && '}' !in body
    ensures SceneOf(p.typeName + " " + p.name + " {" + body + "}") == Some(Vrscene([], [], [p]))
  {
    var s := p.typeName + " " + p.name + " {" + body + "}";
    assert s == s + [];
    assert s[0] == p.typeName[0];
    LetterIsNoDelimiter(s[0]);
    NeitherCommentNorInclude(s);
    PluginOfJoin(p, body, []);
    TrimmedLeadingJoin([], []);
    assert Step(s) == Some((PluginItem(p), []));
    assert Add(EmptyScene, PluginItem(p)) == Vrscene([], [], [p]);
    assert SceneLoop([], Vrscene([], [], [p])) == Some(Vrscene([], [], [p]));
  }

  /** A single include directive at the end of the input. */
  lemma IncludeAtEnd(f: string)
    requires '"' !in f
    ensures SceneOf("#include \"" + f + "\"") == Some(Vrscene([f], [], []))
  {
    var s := "#include \"" + f + "\"";
    assert s == s + [];
    TrimmedLeadingJoin([], s);
    assert s[0] == '#';
    assert CommentOf(s) == Parsed(None, s);
    IncludeOfJoin(f, []);
    TrimmedLeadingJoin([], []);
    assert Step(s) == Some((IncludeItem(f), []));
    assert Add(EmptyScene, IncludeItem(f)) == Vrscene([f], [], []);
    assert SceneLoop([], Vrscene([f], [], [])) == Some(Vrscene([f], [], []));
  }

  /** A comment with no newline after it runs to the end of the input. */
  lemma CommentAtEnd(c: string)
    requires IsCommentText(c)
    ensures SceneOf(c) == Some(Vrscene([], [c], []))
  {
    assert c == c + [];
    CommentOfJoin(c, []);
    TrimmedLeadingJoin([], []);
    assert Step(c) == Some((CommentItem(c), []));
    assert Add(EmptyScene, CommentItem(c)) == Vrscene([], [c], []);
    assert SceneLoop([], Vrscene([], [c], [])) == Some(Vrscene([], [c], []));
  }

  /** `#include` not followed by a quoted string leaves the keyword and the
      whitespace after it consumed, so the text after it is read as a plugin. */
  lemma IncludeKeywordThenPlugin(p: Plugin)
    requires IsIdentifier(p.typeName) && IsIdentifier(p.name)
    ensures SceneOf("#include " + (p.typeName + " " + p.name + " {}")) == Some(Vrscene([], [], [p]))
  {
    var after := p.typeName + " " + p.name + " {}";
    var s := "#include " + after;
    assert after[0] == p.typeName[0];
    IncludeKeywordOnly(after);
    assert after == p.typeName + " " + p.name + " {" + [] + "}" + [];
    PluginOfJoin(p, [], []);
    assert PluginOf(after) == Parsed(Some(p), []);
    TrimmedLeadingJoin([], []);
    assert Step(s) == Some((PluginItem(p), []));
    assert Add(EmptyScene, PluginItem(p)) == Vrscene([], [], [p]);
    assert SceneLoop([], Vrscene([], [], [p])) == Some(Vrscene([], [], [p]));
  }

  /** A cursor that opens with neither whitespace, `/` nor `#` and is no
      plugin makes the whole parse fail. */
  lemma PluginFailureFailsDocument(s: string)
    requires s != [] && !IsSpace(s[0]) && s[0] != '/' && s[0] != '#'
    requires PluginOf(s).result.None?
    ensures SceneOf(s) == None
  {
    NeitherCommentNorInclude(s);
  }

  /** A plugin header with no `}` anywhere after its name makes the whole
      parse fail. */
  lemma HeaderWithoutBlockFails(p: Plugin, tail: string)
    requires IsIdentifier(p.typeName) && IsIdentifier(p.name) && '}' !in tail
    requires tail == [] || IsIdentifierEnd(tail[0])
    ensures SceneOf(p.typeName + " " + p.name + tail) == None
  {
    var s := p.typeName + " " + p.name + tail;
    HeaderPluginFails(p, tail);
    assert s[0] == p.typeName[0];
    LetterIsNoDelimiter(s[0]);
    PluginFailureFailsDocument(s);
  }

  /** The line `TexChecker tex01`, with no block, gives no scene. */
  lemma MissingBraceDocumentFails()
    ensures SceneOf("TexChecker tex01\n") == None
  {
    MissingBraceFails();
    PluginFailureFailsDocument("TexChecker tex01\n");
  }

  /** A cursor that opens with `"` is no plugin, and the attempt leaves it
      unmoved. */
  lemma QuoteIsNoPlugin(s: string)
    requires s != [] && s[0] == '"'
    ensures PluginOf(s) == Parsed(None, s)
  {
    TrimmedLeadingUnique(s, 0);
  }

  /** No iteration can start on a `"`: it opens no comment, no include and no
      identifier. */
  lemma QuoteStartsNothing(s: string)
    requires s != [] && s[0] == '"'
    ensures Step(s) == None
  {
    TrimmedLeadingUnique(s, 0);
  }

  /** An include directive whose file name is never closed makes the whole
      parse fail. */
  lemma UnterminatedIncludeFails(f: string)
    requires '"' !in f
    ensures SceneOf("#include \"" + f) == None
  {
    var s := "#include \"" + f;
    TrimmedLeadingJoin([], s);
    assert s[0] == '#';
    UnterminatedIncludeOf(f);
    QuoteIsNoPlugin("\"" + f);
  }

  /** A plugin whose block is never closed makes the whole parse fail. */
  lemma UnclosedBlockFails(p: Plugin, body: string)
    requires IsIdentifier(p.typeName) && IsIdentifier(p.name) && '}' !in body
    ensures SceneOf(p.typeName + " " + p.name + " {" + body) == None
  {
    var tail := " {" + body;
    assert forall i :: 2 <= i < |tail| ==> tail[i] == body[i - 2];
    HeaderWithoutBlockFails(p, tail);
    assert p.typeName + " " + p.name + tail == p.typeName + " " + p.name + " {" + body;
  }
}
