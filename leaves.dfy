/** Leaf parsers: quoted string, `#include` directive, line comment and
    identifier. Each takes the cursor and gives back an optional fragment and
    the cursor after the call. */
module Leaves {
  import opened Wrappers
  import opened Lexical

  type Include = string
  type Comment = string
  type Identifier = string

  /** `qouted_string` as written: with no closing quote, `find` yields `npos`,
      so the fragment is everything after the opening quote (`end - 1` wraps to
      `npos - 1`) and the cursor is left as it was (`end + 1` wraps to 0). */
  ghost function QuotedOfAsWritten(s: string): (r: Parsed<string>)
    ensures r.result.Some? <==> s != [] && s[0] == '"'
    ensures Find(s, '"', 1).Some? ==> r == QuotedOf(s)
  {
    if s == [] || s[0] != '"' then Parsed(None, s)
    else match Find(s, '"', 1)
      case None => Parsed(Some(s[1..]), s)
      case Some(end) => Parsed(Some(s[1..end]), s[end + 1..])
  }

  /** As written, an unterminated quoted string is reported as a match. */
  lemma UnterminatedQuoteAsWritten()
    ensures QuotedOfAsWritten("\"abc") == Parsed(Some("abc"), "\"abc")
  {
    assert Find("\"abc", '"', 1) == None;
  }

  /** A quoted string: an opening `"`, the text up to the next `"`, and that
      closing `"`. */
  ghost function QuotedOf(s: string): (p: Parsed<string>)
    ensures |p.rest| <= |s|
    ensures p.result.Some? ==> |p.rest| < |s|
  {
    if s == [] || s[0] != '"' then Parsed(None, s)
    else match Find(s, '"', 1)
      case None => Parsed(None, s)
      case Some(end) => Parsed(Some(s[1..end]), s[end + 1..])
  }

  /** A quoted string is found exactly when the cursor opens with `"` and a
      closing `"` follows; the cursor is then the opening quote, the text, the
      closing quote and the new cursor, and the text holds no `"`. On no match
      the cursor is unchanged. */
  lemma QuotedOfShape(s: string)
    ensures var p := QuotedOf(s);
      && (p.result.None? ==> p.rest == s)
      && (p.result.Some? <==> (s != [] && s[0] == '"' && '"' in s[1..]))
      && (p.result.Some? ==>
            s == ['"'] + p.result.value + ['"'] + p.rest && '"' !in p.result.value)
  {
    if s != [] && s[0] == '"' {
      match Find(s, '"', 1)
      case None =>
        assert '"' !in s[1..];
      case Some(end) =>
        assert s == ['"'] + s[1..end] + ['"'] + s[end + 1..];
    }
  }

  /** The corrected `qouted_string` fails on an unterminated string. */
  lemma UnterminatedQuoteFails()
    ensures QuotedOf("\"abc") == Parsed(None, "\"abc")
  {
    assert '"' !in "\"abc"[1..];
  }

  /** `qouted_string`, with an empty cursor and a missing closing quote both
      reported as no match. */
  method QuotedString(s: string) returns (r: Maybe<string>, rest: string)
    ensures Parsed(r, rest) == QuotedOf(s)
  {
    if s == [] || s[0] != '"' {
      return None, s;
    }
    var end := Find(s, '"', 1);
    if end.None? {
      return None, s;
    }
    r, rest := Some(s[1..end.value]), s[end.value + 1..];
  }

  /** `#include "file"`: optional whitespace, the keyword, optional whitespace
      and a quoted string. */
  ghost function IncludeOf(s: string): (p: Parsed<Include>)
    ensures |p.rest| <= |s|
    ensures p.result.Some? ==> |p.rest| < |s|
  {
    var t := TrimmedLeading(s);
    if !Match(t, "#include") then Parsed(None, t)
    else QuotedOf(TrimmedLeading(t[8..]))
  }

  /** An include is found exactly when the trimmed cursor starts with
      `#include` and, after more whitespace, a terminated quoted string; its
      file name holds no `"`. When the keyword is present but no quoted string
      follows, the keyword and the whitespace after it stay consumed. */
  lemma IncludeOfShape(s: string)
    ensures var p, t := IncludeOf(s), TrimmedLeading(s);
      && (p.result.Some? <==> "#include" <= t && QuotedOf(TrimmedLeading(t[8..])).result.Some?)
      && (p.result.Some? ==>
            && TrimmedLeading(t[8..]) == ['"'] + p.result.value + ['"'] + p.rest
            && '"' !in p.result.value)
      && (p.result.None? ==> p.rest == if "#include" <= t then TrimmedLeading(t[8..]) else t)
  {
    var t := TrimmedLeading(s);
    if "#include" <= t {
      QuotedOfShape(TrimmedLeading(t[8..]));
    }
  }

  /** `parse_include`. */
  method ParseInclude(s: string) returns (r: Maybe<Include>, rest: string)
    ensures Parsed(r, rest) == IncludeOf(s)
  {
    rest := TrimLeadingWhitespace(s);
    var ok;
    ok, rest := TryConsume(rest, "#include");
    if !ok {
      return None, rest;
    }
    rest := TrimLeadingWhitespace(rest);
    r, rest := QuotedString(rest);
  }

  /** A line comment: after optional whitespace, `//` and the rest of the line
      up to the newline, or to the end of the input when there is none. */
  ghost function CommentOf(s: string): (p: Parsed<Comment>)
    ensures |p.rest| <= |s|
    ensures p.result.Some? ==> |p.rest| < |s|
  {
    var t := TrimmedLeading(s);
    if !Match(t, "//") then Parsed(None, t) else LineComment(t)
  }

  /** The comment that opens `t`: the line up to the newline (or the whole of
      `t`) without its trailing whitespace, and the cursor at the newline. */
  ghost function LineComment(t: string): (p: Parsed<Comment>)
    requires "//" <= t
    ensures |p.rest| < |t|
  {
    var e := match Find(t, '\n', 0) case None => |t| case Some(eol) => eol;
    Parsed(Some(TrimmedTrailing(t[..e])), t[e..])
  }

  /** The text `parse_comment` can return: `//` first, no newline, and a
      non-space last character. */
  predicate IsCommentText(c: string) {
    && 2 <= |c| && c[..2] == "//" && !IsSpace(c[|c| - 1])
    && (forall i :: 0 <= i < |c| ==> c[i] != '\n')
  }

  /** The line `t` splits into a comment text, whitespace other than
      newlines, and the new cursor, which is at the newline or at the end of
      the input. */
  predicate IsCommentSplit(t: string, c: Comment, rest: string) {
    && IsCommentText(c)
    && |c| + |rest| <= |t| && c == t[..|c|] && rest == t[|t| - |rest|..]
    && (forall i :: |c| <= i < |t| - |rest| ==> IsSpace(t[i]) && t[i] != '\n')
    && (rest == [] || rest[0] == '\n')
  }

  lemma LineCommentShape(t: string)
    requires "//" <= t
    ensures LineComment(t).result.Some?
    ensures IsCommentSplit(t, LineComment(t).result.value, LineComment(t).rest)
  {
    var eol := Find(t, '\n', 0);
    var e := if eol.Some? then eol.value else |t|;
    assert t[0] == '/' && t[1] == '/';
    var line := t[..e];
    var c := TrimmedTrailing(line);
    TrimmedTrailingShape(line);
    KeepsNonSpace(line, 1);
    assert c == t[..|c|];
    assert c[..2] == "//";
    forall i | |c| <= i < e
      ensures IsSpace(t[i]) && t[i] != '\n'
    {
      assert t[i] == line[|c|..][i - |c|];
    }
  }

  /** `parse_comment` finds a comment exactly when the trimmed cursor starts
      with `//`, and then splits the line as `IsCommentSplit` says. On no match
      only leading whitespace is gone. */
  lemma CommentOfShape(s: string)
    ensures var p, t := CommentOf(s), TrimmedLeading(s);
      && (p.result.Some? <==> "//" <= t)
      && (p.result.None? ==> p.rest == t)
      && (p.result.Some? ==> IsCommentSplit(t, p.result.value, p.rest))
  {
    var t := TrimmedLeading(s);
    if "//" <= t {
      LineCommentShape(t);
    }
  }

  /** Trailing trimming never removes a non-space character or what precedes it. */
  lemma KeepsNonSpace(s: string, j: nat)
    requires j < |s| && !IsSpace(s[j])
    ensures j < |TrimmedTrailing(s)|
  {
    TrimmedTrailingShape(s);
  }

  /** `parse_comment`; a comment with no newline after it runs to the end of
      the input. */
  method ParseComment(s: string) returns (r: Maybe<Comment>, rest: string)
    ensures Parsed(r, rest) == CommentOf(s)
  {
    rest := TrimLeadingWhitespace(s);
    if !Match(rest, "//") {
      return None, rest;
    }
    var eol := Find(rest, '\n', 0);
    // with no newline, the comment and the removed prefix run to the end
    var e := if eol.Some? then eol.value else |rest|;
    var comment := TrimTrailingWhitespace(rest[..e]);
    r, rest := Some(comment), rest[e..];
  }

  /** The characters that end an identifier: whitespace and `=;{}:,()`. */
  predicate IsIdentifierEnd(c: char) {
    || IsSpace(c)
    || c == '=' || c == ';' || c == '{' || c == '}'
    || c == ':' || c == ',' || c == '(' || c == ')'
  }

  /** The breaks are whitespace and exactly the characters of `=;{}:,()`. */
  lemma IdentifierBreaks(c: char)
    ensures IsIdentifierEnd(c) <==> IsSpace(c) || c in "=;{}:,()"
  {
  }

  /** A letter, which is how an identifier opens, is no whitespace, no break,
      and none of the characters that open a comment or a quoted string. */
  lemma LetterIsNoDelimiter(c: char)
    requires IsAlpha(c)
    ensures !IsSpace(c) && !IsIdentifierEnd(c) && c != '"' && c != '#' && c != '/'
  {
  }

  /** Text made of identifier characters only. */
  predicate IsIdentifierText(id: string) {
    forall k :: 0 <= k < |id| ==> !IsIdentifierEnd(id[k])
  }

  /** The end of the identifier run in `t` scanned from position `i`: the first
      position at or after `i` holding an identifier end, or the end of `t`. */
  ghost function IdentifierEnd(t: string, i: nat): (n: nat)
    requires i <= |t|
    decreases |t| - i
    ensures i <= n <= |t|
    ensures forall k :: i <= k < n ==> !IsIdentifierEnd(t[k])
    ensures n == |t| || IsIdentifierEnd(t[n])
  {
    if i == |t| || IsIdentifierEnd(t[i]) then i else IdentifierEnd(t, i + 1)
  }

  /** An identifier: after optional whitespace, a letter followed by the longest
      run of identifier characters. On no match only the whitespace is gone. */
  ghost function IdentifierOf(s: string): (p: Parsed<Identifier>)
    ensures |p.rest| <= |s|
    ensures p.result.Some? ==> |p.rest| < |s|
  {
    var t := TrimmedLeading(s);
    if t == [] || !IsAlpha(t[0]) then Parsed(None, t)
    else
      var n := IdentifierEnd(t, 1);
      Parsed(Some(t[..n]), t[n..])
  }

  /** An identifier is found exactly when the trimmed cursor starts with a
      letter; it holds no identifier end, it and the new cursor make up the
      trimmed cursor, and the new cursor is empty or starts with an identifier
      end. On no match only leading whitespace is gone. */
  lemma IdentifierOfShape(s: string)
    ensures var p, t := IdentifierOf(s), TrimmedLeading(s);
      && (p.result.Some? <==> t != [] && IsAlpha(t[0]))
      && (p.result.None? ==> p.rest == t)
      && (p.result.Some? ==>
            var id := p.result.value;
            && id != [] && IsAlpha(id[0]) && IsIdentifierText(id)
            && |id| + |p.rest| == |t| && id == t[..|id|] && p.rest == t[|id|..]
            && (p.rest == [] || IsIdentifierEnd(p.rest[0])))
  {
    var t := TrimmedLeading(s);
    if t != [] && IsAlpha(t[0]) {
      var n := IdentifierEnd(t, 1);
      var id := t[..n];
      assert !IsIdentifierEnd(id[0]);
      assert forall k :: 1 <= k < |id| ==> id[k] == t[k];
    }
  }

  /** `parse_identifier`: the scan `src[++end]` starts at the second character
      (the first is a letter) and also stops at the end of the input. */
  method ParseIdentifier(s: string) returns (r: Maybe<Identifier>, rest: string)
    ensures Parsed(r, rest) == IdentifierOf(s)
  {
    rest := TrimLeadingWhitespace(s);
    if rest == [] || !IsAlpha(rest[0]) {
      return None, rest;
    }
    var end := 1;
    while end < |rest| && !IsIdentifierEnd(rest[end])
      invariant 1 <= end <= |rest|
      invariant IdentifierEnd(rest, end) == IdentifierEnd(rest, 1)
    {
      end := end + 1;
    }
    r, rest := Some(rest[..end]), rest[end..];
  }

  /** The scan for the end of an identifier stops at the first identifier end
      at or after `i`, or at the end of `t`. */
  lemma {:induction false} IdentifierEndAt(t: string, i: nat, k: nat)
    requires i <= k <= |t|
    requires forall j :: i <= j < k ==> !IsIdentifierEnd(t[j])
    requires k == |t| || IsIdentifierEnd(t[k])
    decreases k - i
    ensures IdentifierEnd(t, i) == k
  {
    if i < k {
      IdentifierEndAt(t, i + 1, k);
    }
  }

  /** A non-empty identifier text that starts with a letter. */
  predicate IsIdentifier(id: string) {
    id != [] && IsAlpha(id[0]) && IsIdentifierText(id)
  }

  /** A quoted string reads back its interior, up to the closing quote. */
  lemma QuotedOfJoin(f: string, rest: string)
    requires '"' !in f
    ensures QuotedOf("\"" + f + "\"" + rest) == Parsed(Some(f), rest)
  {
    var s := "\"" + f + "\"" + rest;
    assert s[|f| + 1] == '"';
    assert forall i :: 1 <= i < |f| + 1 ==> s[i] == f[i - 1];
    assert Find(s, '"', 1) == Some(|f| + 1);
    assert s[1..|f| + 1] == f && s[|f| + 2..] == rest;
  }

  /** `#include "f"` reads back `f`, with the cursor at what follows. */
  lemma IncludeOfJoin(f: string, rest: string)
    requires '"' !in f
    ensures IncludeOf("#include \"" + f + "\"" + rest) == Parsed(Some(f), rest)
  {
    var s := "#include \"" + f + "\"" + rest;
    var q := "\"" + f + "\"" + rest;
    assert s == "#include" + (" " + q);
    TrimmedLeadingJoin([], s);
    assert s[8..] == [' '] + q;
    TrimmedLeadingJoin(" ", q);
    QuotedOfJoin(f, rest);
  }

  /** `#include` and a file name that is never closed is no include; the
      cursor is left at the opening quote. */
  lemma UnterminatedIncludeOf(f: string)
    requires '"' !in f
    ensures IncludeOf("#include \"" + f) == Parsed(None, "\"" + f)
  {
    var s, q := "#include \"" + f, "\"" + f;
    TrimmedLeadingJoin([], s);
    assert s[..8] == "#include";
    assert s[8..] == " " + q;
    TrimmedLeadingJoin(" ", q);
    assert '"' !in q[1..];
    QuotedOfShape(q);
  }

  /** `#include` and whitespace followed by anything but a quoted string is no
      include, and the keyword and the whitespace stay consumed. */
  lemma IncludeKeywordOnly(after: string)
    requires after != [] && after[0] != '"' && !IsSpace(after[0])
    ensures IncludeOf("#include " + after) == Parsed(None, after)
    ensures CommentOf("#include " + after) == Parsed(None, "#include " + after)
  {
    var s := "#include " + after;
    var tail := " " + after;
    assert s == "#include" + tail;
    TrimmedLeadingJoin([], s);
    assert s[0] == '#';
    assert s[..8] == "#include";
    assert s[8..] == tail;
    TrimmedLeadingJoin(" ", after);
  }

  /** Whitespace, an identifier and an identifier end read back that
      identifier, with the cursor at the identifier end. */
  lemma IdentifierOfJoin(w: string, id: string, rest: string)
    requires AllSpace(w) && IsIdentifier(id)
    requires rest == [] || IsIdentifierEnd(rest[0])
    ensures IdentifierOf(w + id + rest) == Parsed(Some(id), rest)
  {
    var t := id + rest;
    assert w + id + rest == w + t;
    TrimmedLeadingJoin(w, t);
    assert t[0] == id[0];
    assert forall i :: 1 <= i < |id| ==> t[i] == id[i];
    IdentifierEndAt(t, 1, |id|);
    assert t[..|id|] == id && t[|id|..] == rest;
  }

  /** A comment followed by the end of the input or a newline reads back that
      comment, with the cursor at the newline. */
  lemma CommentOfJoin(c: string, rest: string)
    requires IsCommentText(c) && (rest == [] || rest[0] == '\n')
    ensures CommentOf(c + rest) == Parsed(Some(c), rest)
  {
    var t := c + rest;
    TrimmedLeadingJoin([], t);
    assert t[..2] == c[..2];
    assert forall i :: 0 <= i < |c| ==> t[i] == c[i];
    var e := |c|;
    if rest == [] {
      assert Find(t, '\n', 0).None?;
    } else {
      assert t[e] == '\n';
      assert Find(t, '\n', 0) == Some(e);
    }
    assert t[..e] == c && t[e..] == rest;
    TrimmedTrailingUnique(c, |c|);
  }
}
