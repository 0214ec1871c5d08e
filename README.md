# vrscene_parser in Dafny

A model of the single-header V-Ray scene (`.vrscene`) reader in
`vrscene_parser.h`. The reader walks a text cursor over the document and
collects three kinds of top-level productions into a `Vrscene`:

- line comments (`// ...`, trailing whitespace dropped);
- include directives (`#include "file"`);
- plugin headers (`TypeName instanceName { ... }`, the block skipped up to the
  first `}`).

What the model contains:

- Module `Wrappers` holds `Maybe` (the source's `std::optional`) and
  `Parsed`, a result paired with the cursor left after the call.
- Module `Lexical` holds the character classes and the cursor primitives: the
  two trims, `match`, `try_consume`, and `string_view::find`.
- Module `Leaves` holds the leaf parsers: `qouted_string`, `parse_include`,
  `parse_comment` and `parse_identifier`.
- Module `Scene` holds `Plugin`, `Vrscene`, `parse_plugin` and the driver
  loop `parse_vrscene`.
- Module `Scenarios` holds whole-document properties. The main one is a
  round trip: well-formed productions, printed in canonical form, parse back
  to the same productions.

How the C++ is modelled:

- The source passes a `std::string_view&` and shrinks it in place. The model
  passes the cursor as the remaining `string` instead:
  - every cursor-moving function becomes a `method` that returns the result
    and the new cursor;
  - each such method is proved equal to a ghost specification function
    (`IncludeOf`, `CommentOf`, ...), which returns a `Parsed`;
  - the properties are lemmas about those functions.
- The loops of the source stay loops, with their invariants:
  - the two trims;
  - the identifier scan;
  - the driver.
- `find` is `Lexical.Find`, which returns `None` where the source gets
  `npos`.

### Behaviour the model fixes where the C++ does not define it

- `front()`, `back()` and `str[0]` on an empty view:
  - the trims stop;
  - `parse_identifier` fails;
  - `qouted_string` fails.
- The identifier scan reads `src[++end]` past the end of the view. The model
  stops the identifier at the end of input instead.
- A comment with no newline after it, where `remove_prefix(npos)` is
  undefined: the comment runs to the end of input and the cursor is left
  empty.
- Non-empty input consisting only of whitespace gives no scene. The trim
  stops on the empty view (vrscene_parser.h:27), and the identifier test of
  `front()` then fails (vrscene_parser.h:81), so the iteration recognises
  nothing. Empty input gives the empty scene (`Scene.WhitespaceOnlyFails`,
  `Scene.EmptyInput`).

### Behaviour the model keeps as the code has it

- A failed parser does not restore the cursor. The failure paths keep this,
  as the code has it:
  - a failed comment or identifier still has its leading whitespace trimmed;
  - `#include` not followed by a quoted string still consumes the keyword and
    the whitespace after it, so the driver then reads what follows as a plugin
    header (`Scenarios.IncludeKeywordThenPlugin`).
- `try_consume` has no whitespace-skipping flag; it is a plain prefix test
  (vrscene_parser.h:38-42).
- Identifiers start with an ASCII letter (`std::isalpha` in the C locale,
  vrscene_parser.h:81); `_` and bytes at or above 0xC0 are not accepted.

### Behaviour the model corrects

- When `find` reaches `npos`, `remove_prefix(npos + 1)` wraps to
  `remove_prefix(0)`. This is a defect in two places; see "## Findings".
- The as-written meanings (`Leaves.QuotedOfAsWritten`,
  `Scene.PluginOfAsWritten`) are modelled and shown on an input.
- The driver uses the corrected definitions (`Leaves.QuotedOf`,
  `Scene.PluginOf`), under which such an input fails.
- For a whole document:
  - The quoted-string correction changes nothing: as written, the cursor stays
    on a `"`, where no production can start (`Scenarios.QuoteStartsNothing`),
    so the document fails either way (`Scenarios.UnterminatedIncludeFails`).
  - The plugin correction does change the result; see `Scene.ParseVrscene`
    under "## Left out".

## Model

| member | source | states |
|---|---|---|
| Wrappers.Maybe | vrscene_parser.h:9 | `std::optional`: no value, or one value |
| Leaves.Include | vrscene_parser.h:11 | an include is the file name text |
| Leaves.Comment | vrscene_parser.h:12 | a comment is its text, `//` included |
| Leaves.Identifier | vrscene_parser.h:13 | an identifier is its text |
| Scene.Plugin | vrscene_parser.h:15-18 | `struct Plugin`: a name and a type, the field `type` named `typeName` |
| Scene.Vrscene | vrscene_parser.h:20-24 | `struct Vrscene`: the includes, comments and plugins, each in the order found |
| Lexical.IsSpace | vrscene_parser.h:44-46 | `std::isspace` in the C locale, used by `is_space` and by both trims (lines 27 and 31): space, tab, newline, vertical tab, form feed and carriage return |
| Lexical.IsSpaceCodes | vrscene_parser.h:44-46 | the whitespace characters are exactly those with codes 9 to 13 and 32 |
| Lexical.IsAlpha | vrscene_parser.h:81 | `std::isalpha` in the C locale: the ASCII letters |
| Lexical.TrimmedLeading | vrscene_parser.h:26-28 | leading trim never lengthens the view |
| Lexical.TrimmedLeadingShape | vrscene_parser.h:26-28 | the leading trim is a suffix of the input, the cut-off part is all whitespace, and the result is empty or starts with non-whitespace |
| Lexical.TrimmedLeadingUnique | vrscene_parser.h:26-28 | any cut made after an all-whitespace prefix and before a non-whitespace character (or the end) is exactly the leading trim |
| Lexical.TrimmedLeadingIdempotent | vrscene_parser.h:26-28 | trimming leading whitespace twice equals trimming once |
| Lexical.TrimmedLeadingJoin | vrscene_parser.h:26-28 | whitespace put before a text that starts with non-whitespace is exactly what the leading trim removes |
| Lexical.TrimLeadingWhitespace | vrscene_parser.h:26-28 | the loop removes leading whitespace one character at a time and ends with the leading trim of its input |
| Lexical.TrimmedTrailing | vrscene_parser.h:30-32 | trailing trim never lengthens the view |
| Lexical.TrimmedTrailingShape | vrscene_parser.h:30-32 | the trailing trim is a prefix of the input, the cut-off part is all whitespace, and the result is empty or ends with non-whitespace |
| Lexical.TrimmedTrailingUnique | vrscene_parser.h:30-32 | any cut made after a non-whitespace character (or at the start) and before an all-whitespace suffix is exactly the trailing trim |
| Lexical.TrimmedTrailingIdempotent | vrscene_parser.h:30-32 | trimming trailing whitespace twice equals trimming once |
| Lexical.TrimTrailingWhitespace | vrscene_parser.h:30-32 | the loop removes trailing whitespace one character at a time and ends with the trailing trim of its input |
| Lexical.Match | vrscene_parser.h:34-36 | true exactly when the token is a prefix of the view, including a token longer than the view |
| Lexical.TryConsume | vrscene_parser.h:38-42 | succeeds exactly when the token is a prefix; then the cursor is the view with the token removed, otherwise it is unchanged |
| Lexical.Find | vrscene_parser.h:50 | the index of the first occurrence at or after the start position, or none exactly when there is no occurrence there |
| Leaves.QuotedOfAsWritten | vrscene_parser.h:48-54 | as written, the reader succeeds whenever the view starts with `"`, closing quote or not; wherever a closing quote exists it agrees with the corrected reader |
| Leaves.UnterminatedQuoteAsWritten | vrscene_parser.h:48-54 | as written, `"abc` with no closing quote yields `abc` and leaves the cursor where it was |
| Leaves.QuotedOf | vrscene_parser.h:48-54 | the quoted string never lengthens the cursor, and success strictly shortens it |
| Leaves.QuotedOfShape | vrscene_parser.h:48-54 | succeeds exactly when the view starts with `"` and has a second `"`; the value is the text between them, holds no quote, and the cursor is what follows the closing quote; on failure the cursor is unchanged |
| Leaves.UnterminatedQuoteFails | vrscene_parser.h:50-52 | an opening quote with no closing quote fails and leaves the cursor unchanged |
| Leaves.QuotedOfJoin | vrscene_parser.h:48-54 | a quoted text with no inner quote reads back as that text, with the cursor just past the closing quote |
| Leaves.QuotedString | vrscene_parser.h:48-54 | the method returns the value and cursor of the quoted-string specification |
| Leaves.IncludeOf | vrscene_parser.h:56-64 | an include never lengthens the cursor, and success strictly shortens it |
| Leaves.IncludeOfShape | vrscene_parser.h:56-64 | without the `#include` keyword it fails with only leading whitespace removed; with it, the result is the quoted string after the keyword and the whitespace after it |
| Leaves.IncludeOfJoin | vrscene_parser.h:56-64 | `#include "f"` followed by any text yields `f`, with the cursor at that text |
| Leaves.IncludeKeywordOnly | vrscene_parser.h:58-62 | `#include`, a space and then text starting with neither a quote nor whitespace fails, having consumed the keyword and the space; it is no comment either |
| Leaves.UnterminatedIncludeOf | vrscene_parser.h:56-64 | `#include` and a file name that is never closed is no include, with the cursor left at the opening quote |
| Leaves.ParseInclude | vrscene_parser.h:56-64 | trim, consume the keyword, trim, read the quoted string: the method matches the include specification |
| Leaves.LineComment | vrscene_parser.h:70-74 | taking a comment strictly shortens the cursor |
| Leaves.LineCommentShape | vrscene_parser.h:70-74 | the comment is the line up to the first newline (or the end of input) with trailing whitespace dropped; the cursor starts at that newline, or is empty |
| Leaves.CommentOf | vrscene_parser.h:66-75 | a comment never lengthens the cursor, and success strictly shortens it |
| Leaves.CommentOfShape | vrscene_parser.h:66-75 | succeeds exactly when the trimmed view starts with `//`, giving the line as in LineCommentShape; on failure only leading whitespace is removed |
| Leaves.KeepsNonSpace | vrscene_parser.h:72 | trailing trimming keeps every character up to the last non-whitespace one |
| Leaves.CommentOfJoin | vrscene_parser.h:66-75 | a comment text followed by a newline or the end reads back as that text, with the cursor at the newline |
| Leaves.ParseComment | vrscene_parser.h:66-75 | the method matches the comment specification |
| Leaves.IsIdentifierEnd | vrscene_parser.h:83-86 | the `is_identifier_end` lambda: whitespace or one of `=;{}:,()` |
| Leaves.IdentifierBreaks | vrscene_parser.h:83-86 | the breaks are exactly whitespace and the characters of `=;{}:,()` |
| Leaves.LetterIsNoDelimiter | vrscene_parser.h:81 | a letter, which opens every identifier, is neither whitespace, a break, `"`, `#` nor `/` |
| Leaves.IdentifierEnd | vrscene_parser.h:83-89 | the scan stops at the first whitespace or one of `=;{}:,()` at or after the start, or at the end of input |
| Leaves.IdentifierEndAt | vrscene_parser.h:88-89 | a scan that passes only identifier characters up to a break ends at that break |
| Leaves.IdentifierOf | vrscene_parser.h:78-93 | an identifier never lengthens the cursor, and success strictly shortens it |
| Leaves.IdentifierOfShape | vrscene_parser.h:78-93 | succeeds exactly when the trimmed view starts with a letter; the identifier is the longest prefix without breaks after that letter, and the cursor is what follows; on failure only the leading whitespace is gone |
| Leaves.IdentifierOfJoin | vrscene_parser.h:78-93 | whitespace, an identifier and then a break or the end reads back as that identifier, with the cursor at the break |
| Leaves.ParseIdentifier | vrscene_parser.h:78-93 | the `++end` scan loop returns the identifier specification's value and cursor |
| Scene.PluginOfAsWritten | vrscene_parser.h:95-104 | as written, a plugin is returned whenever two identifiers are read, `}` or not; wherever a `}` follows the name it agrees with the corrected parser |
| Scene.PluginOf | vrscene_parser.h:95-104 | a plugin never lengthens the cursor, and success strictly shortens it |
| Scene.PluginOfShape | vrscene_parser.h:95-104 | succeeds exactly when two identifiers are read in a row and a `}` follows; the plugin's type is the first and its name the second, and the cursor is just past the first `}` |
| Scene.HeaderWithoutBlock | vrscene_parser.h:96-97 | both identifiers of the line `TexChecker tex01` are read, the cursor left at its newline |
| Scene.MissingBraceAsWritten | vrscene_parser.h:100-103 | as written, the line `TexChecker tex01` with no block yields a plugin, with the cursor left at the newline |
| Scene.MissingBraceFails | vrscene_parser.h:100-101 | the corrected parser rejects the line `TexChecker tex01`, which has no `}` |
| Scene.HeaderPluginFails | vrscene_parser.h:98-101 | a header `type name` with no `}` anywhere after it is no plugin, with the cursor right after the name |
| Scene.BlockEnd | vrscene_parser.h:100 | in ` {body}rest` with no `}` in `body`, the first `}` is the one closing the block |
| Scene.PluginOfJoin | vrscene_parser.h:95-104 | `Type name {body}rest`, with no `}` in the body, yields the plugin with that type and name, with the cursor at `rest` |
| Scene.ParsePlugin | vrscene_parser.h:95-104 | the method reads the two identifiers and skips to the first `}`, matching the plugin specification |
| Scene.Step | vrscene_parser.h:110-123 | one driver iteration tries comment, then include, then plugin, each on the cursor the previous one left; on success the cursor strictly shrinks |
| Scene.Add | vrscene_parser.h:112-118 | each `push_back` keeps what every vector held and adds exactly one production to the scene |
| Scene.SceneLoop | vrscene_parser.h:110-124 | the loop only ever appends to the scene it starts from, and adds at most one production per input character |
| Scene.SceneOf | vrscene_parser.h:106-127 | a returned scene holds at most as many productions as the document has characters |
| Scene.AddProjects | vrscene_parser.h:111-119 | recording one production and then the projections of the rest equals projecting the whole sequence with that production in front |
| Scene.ProjectionsPartition | vrscene_parser.h:111-119 | the comments, includes and plugins of a production sequence together number exactly its productions, so none is lost or counted twice |
| Scene.SceneLoopProjects | vrscene_parser.h:110-124 | the loop's scene is the one so far extended by the comments, includes and plugins of the productions that follow, each in input order |
| Scene.SceneOfProjects | vrscene_parser.h:106-127 | a document gives a scene exactly when its production sequence exists, and then the scene's three lists are the projections of that sequence in input order |
| Scene.NoMatchFails | vrscene_parser.h:120-121 | if an iteration recognises nothing, the whole document fails |
| Scene.EmptyInput | vrscene_parser.h:110-126 | the empty document gives the empty scene |
| Scene.WhitespaceOnlyFails | vrscene_parser.h:110-121 | a non-empty document made only of whitespace gives no scene |
| Scene.StepWellFormed | vrscene_parser.h:110-123 | each recognised production is well formed: identifiers are letter-started and break-free, comments start with `//` and end in non-whitespace, file names hold no quote |
| Scene.SceneLoopWellFormed | vrscene_parser.h:110-124 | the loop only ever adds well-formed productions to a well-formed scene |
| Scene.SceneOfWellFormed | vrscene_parser.h:106-127 | every scene the parser returns is well formed |
| Scene.ParseVrscene | vrscene_parser.h:106-127 | the driver loop returns exactly the scene of the document specification, or none |
| Scenarios.NeitherCommentNorInclude | vrscene_parser.h:66-68 | a cursor starting with neither whitespace, `/` nor `#` is no comment and no include, and neither attempt moves it |
| Scenarios.StepRender | vrscene_parser.h:110-123 | one iteration over a production in canonical form, followed by text that does not start with whitespace, recognises exactly that production |
| Scenarios.StepRenderComment | vrscene_parser.h:66-75 | one iteration over a canonical comment line recognises that comment |
| Scenarios.StepRenderInclude | vrscene_parser.h:56-64 | one iteration over a canonical include line recognises that include |
| Scenarios.StepRenderPlugin | vrscene_parser.h:95-104 | one iteration over a canonical plugin line recognises that plugin |
| Scenarios.ItemsRender | vrscene_parser.h:110-124 | a canonical production put in front of parseable text adds that production in front of the text's productions |
| Scenarios.ItemsRoundTrip | vrscene_parser.h:106-127 | the canonical text of any well-formed production sequence parses back to exactly that sequence |
| Scenarios.SceneRoundTrip | vrscene_parser.h:106-127 | the scene of a canonical document holds its includes, comments and plugins, each in written order |
| Scenarios.PluginAtEnd | vrscene_parser.h:95-104 | a lone plugin with a block at the end of input gives a scene with just that plugin |
| Scenarios.IncludeAtEnd | vrscene_parser.h:56-64 | a lone include directive at the end of input gives a scene with just that include |
| Scenarios.CommentAtEnd | vrscene_parser.h:70-74 | a comment with no newline after it runs to the end of input and is the scene's only comment |
| Scenarios.IncludeKeywordThenPlugin | vrscene_parser.h:58-62 | `#include ` followed by a plugin header is read as that plugin, not as an include |
| Scenarios.PluginFailureFailsDocument | vrscene_parser.h:110-121 | a cursor that opens with neither whitespace, `/` nor `#` and is no plugin makes the whole document fail |
| Scenarios.HeaderWithoutBlockFails | vrscene_parser.h:98-121 | a plugin header with no `}` anywhere after its name makes the whole document fail |
| Scenarios.MissingBraceDocumentFails | vrscene_parser.h:100-121 | the document `TexChecker tex01` plus a newline gives no scene |
| Scenarios.QuoteIsNoPlugin | vrscene_parser.h:95-98 | a cursor that opens with `"` is no plugin, and the attempt leaves it unmoved |
| Scenarios.QuoteStartsNothing | vrscene_parser.h:110-121 | no iteration can start on a `"`: the whole document fails there |
| Scenarios.UnterminatedIncludeFails | vrscene_parser.h:106-127 | an include directive whose file name is never closed makes the whole document fail |
| Scenarios.UnclosedBlockFails | vrscene_parser.h:99-101 | a plugin whose block is never closed makes the whole document fail |

## Left out

- `main.cpp` reads a file from disk and prints the result. File and console
  I/O are not part of this model.
- The commented-out debug output in the driver is not modelled.
- Locale: `std::isspace` and `std::isalpha` are fixed to the C locale's ASCII
  sets. Characters are Dafny `char`, with no byte encoding.
- In-place update: the source's `string_view&` is passed by value and
  returned. Aliasing between views does not arise in the source, so nothing
  is lost beyond the in-place form.
- The `begin = src.find('{')` in `parse_plugin` is computed and never used;
  the model does not compute it. The block is skipped to the first `}`
  whether or not a `{` precedes it. Content and nesting inside a block are
  not parsed, as in the source.
- Plugin parameters, values, lists, expressions and `#include` resolution are
  not implemented by the source, so they are not modelled.
- The source's undefined reads past the end of a view get the meanings listed
  above, not undefined behaviour.
- Scene.ParseVrscene: a plugin header with no `}` anywhere after it makes the
  document fail, where the source returns the plugin. For example, the source
  parses `TexChecker tex01` plus a newline to a scene with one plugin: the
  wrap leaves the cursor at the newline, and the trim empties it. The model
  gives no scene (`Scenarios.MissingBraceDocumentFails`).

## Findings

| source | as written | input that shows it | evidently intended | confidence | as-written member | corrected member |
|---|---|---|---|---|---|---|
| vrscene_parser.h:50-52 | with no closing quote, `find` gives `npos`; `substr(1, npos - 1)` takes the rest of the view and `remove_prefix(npos + 1)` wraps to `remove_prefix(0)`, so the parse succeeds with the cursor unmoved | `"abc` | an unterminated quoted string is a failure | not executed | Leaves.UnterminatedQuoteAsWritten | Leaves.UnterminatedQuoteFails |
| vrscene_parser.h:100-101 | with no `}` after the header, `find` gives `npos` and `remove_prefix(npos + 1)` wraps to `remove_prefix(0)`, so a plugin is returned with the cursor right after its name, at the newline, and the driver then accepts the document | `TexChecker tex01` followed by a newline | a plugin header with no closing `}` is a failure | not executed | Scene.MissingBraceAsWritten | Scene.MissingBraceFails |
