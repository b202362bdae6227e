# VDFParse in Dafny

A model of the header-only C++ parser for Valve's KeyValues ("VDF") text format
in `C++/VDFParse.h`, with proofs about it. The model covers:

- the node tree `VDFNode`;
- the navigation handle `VDFValue`;
- the parser `VDFParser`: the public `ParseString(Content)`, `ParseValue`,
  `ParseObject`, the private token reader `ParseString(Content, Pos)` and
  `SkipWhitespace`.

The modules follow the classes of the header:

- `Lexer` (`lexer.dfy`) holds `SkipWhitespace` and the token reader. Each C++
  loop is a method with a `while` loop. The method is proved equal to a
  recursive function (`WhitespaceEnd`, `ScanFrom` / `TokenAt`), and the lemmas
  are stated about those functions. The cursor `size_t& Pos` becomes a position
  parameter plus a returned end position.
- `Tree` (`tree.dfy`) holds `VDFNode` as a value:
  `Node = Str(text) | Obj(entries)`. An Object's `std::map` is a sequence of
  entries whose keys strictly increase in `std::string` order.
  - `Find` and `Insert` are the map's `find` and `operator[]` assignment.
  - `ToString` is a method with the source's loop, proved equal to the function
    `Render`.
- `Navigation` (`view.dfy`) holds `VDFValue`: a view over an optional node,
  plus the chained lookup `v[k0][k1]...`.
- `Parser` (`parser.dfy`) holds the recursive-descent parser. There are
  functions `ValueAt`, `ObjectAt`, `MembersFrom`, `MemberAt`, `DocumentFrom`
  and `Document`, and methods `ParseValue`, `ParseObject` and `ParseString`
  running the C++ loops, each proved equal to its function.
  - Exceptions become `Err(ParseError(kind, pos))`.
  - The top-level loop of `ParseString(Content)` never ends when an iteration
    leaves the cursor where it was: a stray `}` is read as an empty key with an
    empty value. The model returns `Diverges(pos)` for that case.
- `RoundTrip` (`roundtrip.dfy`): parsing what `ToString` writes.
  - `ToString` does not escape. A well-formed Object whose keys and texts
    contain no `"` and no `\` reads back as itself through
    `ParseString(Content)`, placed under the empty key of the root; this is
    proved.
  - Read as a value by `ParseValue`, the rendering of any such node, String or
    Object, gives back the node. A String's rendering read as a whole document
    does not: `"x"` is taken as a key with its value missing.
  - `Lexer` also proves that the token reader inverts an escaping writer
    (`Quote` / `Escape`). For a quoted token this holds for any text. For an
    unquoted token the text must be non-empty, and the token must be followed by
    the end of input or by a byte that ends a token.
- `ParserExamples` (`parser_examples.dfy`): whole documents and what the root
  holds for them.

Facts the proofs establish about the parser:

- Every parse error is detected at the end of the input.
- Input that ends where a key or a value is expected fails with
  `UnexpectedEndOfInput`.
- A `}` where the top-level loop expects a key makes that loop run for ever.
- A text of only whitespace and comments gives the empty root, and no other
  text does.
- `ExpectedOpenBrace` never escapes the parser.
- Every parsed tree is well formed: each Object's keys are sorted and distinct.

Where the code and a plain description of the VDF format differ, the model
follows the code (`C++/VDFParse.h`):

- Escapes `\n`, `\r`, `\t`, `\\`, `\"` (and `\X` for any other `X`) are decoded
  in unquoted tokens too (lines 251-278), not only in quoted ones.
- A quoted token is rejected only when the byte before the final cursor is not
  `"` (line 280). So input that ends in an escaped quote (`"abc\"`), or in a lone
  `"`, is accepted as a token.
- `key{value}` is accepted and gives `{key: {value: ""}}`: the token reader
  returns an empty token at a `}`, so `value` gets an empty String.
- `ExpectedCloseBrace` is raised only at the end of input: the object loop stops
  only there or at a `}` (lines 219-232).
- A stray `}` at top level makes the top-level loop run for ever (lines 181-189).
  It is not an error and not left unparsed.
- Serialization iterates in `std::map` order, i.e., byte-wise ascending keys, not
  insertion order.
- "Whitespace" is `std::isspace` in the "C" locale: it includes vertical tab and
  form feed. The bytes that end an unquoted token (line 271) do not include
  those two.

## Model

| member | source | states |
|---|---|---|
| Lexer.LineEnd | C++/VDFParse.h:298-300 | the comment body ends at the first `\n` from `p`, or at the end of the text; no `\n` lies before it |
| Lexer.WhitespaceEnd | C++/VDFParse.h:287-306 | the skipper stops at the end of input or at a byte that is neither `isspace` whitespace nor the start of `//`; at such a byte it does not move |
| Lexer.SkippedBlank | C++/VDFParse.h:287-306 | every byte passed over is whitespace or lies on a `//` comment that starts in the skipped range, before its newline |
| Lexer.NoStopInsideComment | C++/VDFParse.h:296-301 | a `//` comment met while skipping is passed over up to its newline, so the skipper never stops inside a comment |
| Lexer.SkipWhitespace | C++/VDFParse.h:287-306 | the skipping loop, including the inner comment loop, leaves the cursor at `WhitespaceEnd` |
| Lexer.SkipIdempotent | C++/VDFParse.h:287-306 | skipping twice is skipping once |
| Lexer.SkipSpaces | C++/VDFParse.h:291-294 | a run of whitespace bytes is passed over as a whole |
| Lexer.ScanFrom | C++/VDFParse.h:251-278 | the token loop ends within the text; it runs out of input only at the end; a quoted scan that stops has just consumed a `"`; an unquoted scan that stops sits on a token-ending byte, which is left unconsumed |
| Lexer.TokenAt | C++/VDFParse.h:238-285 | a token ends at or after the skipped whitespace; a token that consumes nothing leaves the cursor only on a brace; it fails with end of input exactly when only whitespace and comments remain; every error is end of input or an unterminated string, reported at the text's end |
| Lexer.ParseString | C++/VDFParse.h:238-285 | the token reader's loop returns exactly `TokenAt`: same text, same end, same errors |
| Lexer.ScanOneEscaped | C++/VDFParse.h:254-264 | the loop turns the escape of one character back into that character |
| Lexer.ScanHead | C++/VDFParse.h:251-278 | the loop reads the escape of an escaped text's first character and goes on from the rest |
| Lexer.ScanEscaped | C++/VDFParse.h:251-278 | the loop decodes an escaped text back to the text, in quoted and in unquoted tokens |
| Lexer.QuotedTokenRoundTrip | C++/VDFParse.h:238-285 | a quoted token written with escapes reads back as its text, with the cursor after the closing quote |
| Lexer.WrittenBare | C++/VDFParse.h:245 | an escaped unquoted token never starts with whitespace, `"` or `/`, so it is not skipped and not read as quoted |
| Lexer.BareTokenRoundTrip | C++/VDFParse.h:238-285 | an unquoted token written with escapes, followed by the end of input or a token-ending byte, reads back as its text |
| Lexer.QuotedTokenRejected | C++/VDFParse.h:280-282 | a quoted token fails exactly when its loop ran out of input and the text's last byte is not `"` |
| Lexer.TokenAtBrace | C++/VDFParse.h:271-274 | at a brace the token reader returns an empty token and leaves the brace unconsumed |
| Lexer.UnterminatedExamples | C++/VDFParse.h:280-282 | `"abc\"` and a lone `"` are accepted; `"abc` and `"ab\` are rejected at position 4 |
| Lexer.OtherEscape | C++/VDFParse.h:255-262 | a `\` before a byte other than `n`, `r`, `t` reads as that byte |
| Lexer.OtherEscapeExamples | C++/VDFParse.h:255-262 | `\a` reads as `a`, unquoted and quoted |
| Lexer.BareTokenExamples | C++/VDFParse.h:251-278 | escapes are decoded in unquoted tokens; an escaped space does not end a token; `key{` reads `key` |
| Tree.KeyLessIrreflexive | C++/VDFParse.h:87 | no key comes before itself in `std::map`'s order |
| Tree.KeyLessTransitive | C++/VDFParse.h:87 | the key order is transitive |
| Tree.KeyLessTotal | C++/VDFParse.h:87 | two different keys are ordered one way or the other |
| Tree.SortedKeysDistinct | C++/VDFParse.h:87 | in a map's entries every earlier key is smaller than every later one, so no key repeats |
| Tree.Find | C++/VDFParse.h:50-52 | `find` succeeds exactly when some entry has the key, and gives that entry's value |
| Tree.Insert | C++/VDFParse.h:45 | after `map[k] = v` the key `k` maps to `v` and every other key to what it mapped to before; the entries stay sorted; no entry is invented |
| Tree.IsString | C++/VDFParse.h:30 | a node is a String exactly when it is not an Object |
| Tree.IsObject | C++/VDFParse.h:31 | a node is an Object exactly when it is not a String |
| Tree.AsString | C++/VDFParse.h:33-36 | succeeds exactly on a String and gives its text; fails with "not a string" otherwise |
| Tree.GetObject | C++/VDFParse.h:38-41 | succeeds exactly on an Object and gives its entries; fails with "not an object" otherwise |
| Tree.Lookup | C++/VDFParse.h:48-53 | gives a child exactly when the node is an Object holding the key, and then that key's value |
| Tree.SetValue | C++/VDFParse.h:43-46 | succeeds exactly on an Object; the key then maps to the new value and every other key is unchanged; well-formedness is kept; fails on a String |
| Tree.Truthy | C++/VDFParse.h:59-62 | a node is false exactly when it is the empty String or the empty Object |
| Tree.ObjectTruthyIffKey | C++/VDFParse.h:59-62 | an Object is true exactly when some key looks up in it |
| Tree.LastWriteWins | C++/VDFParse.h:43-46 | two writes of one key leave the second value |
| Tree.Spaces | C++/VDFParse.h:65 | `std::string(Indent, ' ')` is `Indent` spaces |
| Tree.ToString | C++/VDFParse.h:64-82 | the buffered loop over the map writes exactly `Render` of the node |
| Tree.RenderShape | C++/VDFParse.h:64-82 | a rendering starts with its indentation; a String's is quoted; an Object's opens with `{` and a newline and ends with `}` |
| Navigation.Wrap | C++/VDFParse.h:93 | the constructor never yields a null view; a null pointer becomes an empty Object |
| Navigation.Empty | C++/VDFParse.h:92 | the default view is over an empty Object |
| Navigation.IsString | C++/VDFParse.h:137-139 | true exactly for a non-null view over a String |
| Navigation.IsObject | C++/VDFParse.h:141-143 | true exactly for a non-null view over an Object |
| Navigation.Truthy | C++/VDFParse.h:95-97 | true exactly for a non-null view over a node that is neither `""` nor an empty Object |
| Navigation.Index | C++/VDFParse.h:99-102 | gives the child when the view is an Object holding the key, otherwise an empty Object view; never null |
| Navigation.AsText | C++/VDFParse.h:108-111 | the text of a String view, `""` for anything else |
| Navigation.ToText | C++/VDFParse.h:123-131 | `"null"` for a null view, a String's own text, and an Object's rendering |
| Navigation.PathNeverNull | C++/VDFParse.h:99-102 | any chain of lookups from a non-null view is non-null |
| Navigation.NeverNull | C++/VDFParse.h:133-135 | `IsNull()` is false for both constructors (92-93), for any lookup (99-102) and for any chain of lookups from a constructed view |
| Navigation.PathFromEmpty | C++/VDFParse.h:99-102 | every chain of lookups through an empty view stays empty, false and textless |
| Navigation.MissingKeyIsEmpty | C++/VDFParse.h:99-102 | a missing key, or any lookup on a String, yields a false, empty Object view |
| Navigation.PathMissing | C++/VDFParse.h:99-111 | once one step of a chain misses, the whole chain converts to `""` and is false |
| Parser.MemberAt | C++/VDFParse.h:220-227 | one key/value step ends within the text; without progress the cursor is on a `}`; the value is well formed; an error is at the text's end |
| Parser.ValueAt | C++/VDFParse.h:195-207 | a value ends within the text, is well formed, and makes no progress only at a `}`; every error is at the text's end and is never `ExpectedOpenBrace`; when only whitespace and comments remain it fails with end of input |
| Parser.ObjectAt | C++/VDFParse.h:209-236 | an Object parse ends just after a consumed `}`; without a `{` it is exactly `ExpectedOpenBrace` at the cursor |
| Parser.MembersFrom | C++/VDFParse.h:219-233 | the member loop ends after a consumed `}` with an Object; it keeps well-formed entries well formed; errors are at the text's end |
| Parser.InsertWellFormed | C++/VDFParse.h:225 | storing a well-formed value in well-formed entries keeps them well formed |
| Parser.DocumentFrom | C++/VDFParse.h:181-189 | the top-level loop ends in a non-null Object root, fails at the text's end, or is stuck at a `}`; a `}` where it expects a key makes it stuck there |
| Parser.MemberAtCloseBrace | C++/VDFParse.h:183-188 | at a `}` one iteration reads the empty key with an empty String value and leaves the cursor on the `}` |
| Parser.Document | C++/VDFParse.h:175-192 | `ParseString(Content)` gives a well-formed Object root, an error at the end of the text, or a position of a `}` where it never returns; it gives the empty root exactly when the text is only whitespace and comments |
| Parser.ParseValue | C++/VDFParse.h:195-207 | the method returns exactly `ValueAt` |
| Parser.ParseObject | C++/VDFParse.h:209-236 | the member loop returns exactly `ObjectAt` |
| Parser.ParseString | C++/VDFParse.h:175-192 | the top-level loop returns exactly `Document` |
| RoundTrip.ScanPlain | C++/VDFParse.h:251-278 | the quoted-token loop copies bytes other than `"` and `\` unchanged |
| RoundTrip.PlainQuotedToken | C++/VDFParse.h:238-285 | a text without `"` or `\`, written in quotes as `ToString` writes it, reads back as that text |
| RoundTrip.ValueRendered | C++/VDFParse.h:195-236 | `ParseValue` applied to `ToString(Indent)` of a well-formed plain node gives back the node and the end of its rendering |
| RoundTrip.MembersRendered | C++/VDFParse.h:219-233 | the member loop over the rendered entries from any entry on gives the whole Object |
| RoundTrip.EntryMember | C++/VDFParse.h:74-77 | the two lines written for an entry read back as one key/value step giving that key and value |
| RoundTrip.DocumentOfRendering | C++/VDFParse.h:64-82 | `ParseString(Content)` of `ToString(0)` of a well-formed plain Object gives a root holding that Object under the empty key |
| ParserExamples.DuplicateKeyLastWins | C++/VDFParse.h:186 | `a 1 a 2` gives a root with the single pair `a: "2"` |
| ParserExamples.BlankDocument | C++/VDFParse.h:179-181 | a text of blanks and `//` comments gives an empty root |
| ParserExamples.StrayCloseBrace | C++/VDFParse.h:181-189 | the document `}` never finishes parsing: the loop is stuck at position 0 |
| ParserExamples.MissingValue | C++/VDFParse.h:198-200 | the document `a` fails with end of input at position 1 |
| ParserExamples.NestedDuplicateKey | C++/VDFParse.h:225 | `x{a 1 a 2}` gives `{x: {a: "2"}}`: inside an Object, too, the last value of a key wins |
| ParserExamples.StringRenderingAsDocument | C++/VDFParse.h:181-200 | the rendering `"x"` of `Str("x")`, read as a document, is the key `x` with its value missing: it fails with end of input at 3 |
| ParserExamples.KeyBeforeCloseBrace | C++/VDFParse.h:219-227 | `k{v}` gives `{k: {v: ""}}` |
| ParserExamples.NestedLookup | C++/VDFParse.h:99-111 | `A{b 1}` parses, and `root["A"]["b"]` converts to `"1"` |

## Left out

- `VDFParser::ParseFile` and the free function `VDFParse` open and read a file.
  File I/O is not modelled; the parser is given the whole text.
- `DebugPrint` and `operator<<` write to an output stream. Console and stream
  output are not modelled.
- `operator const char*` returns a pointer into static or node storage. Its text
  is `AsText`; pointer lifetime is not modelled.
- `GetNode` and the `const char*` overloads of `operator[]` are left out. The
  former exposes pointer identity; the latter forward to the `std::string`
  versions.
- `shared_ptr` sharing and aliasing are not modelled. The tree is a value, so a
  node cannot be reached by two paths.
- Tree.SetValue: the stored value is a `Node`, so it is never null. The public
  `SetValue(Key, VDFNodePtr Value)` accepts a null pointer, which the parser
  never passes. With a null child, `operator[]` treats the key as missing, the
  Object stays truthy (so `Tree.ObjectTruthyIffKey` would not hold), and
  `ToString` dereferences the null pointer at line 76. None of this is
  modelled.
- Bytes are Dafny `char`s, and the key order compares them by code point. That
  is `std::string`'s order for byte values 0-255 (it compares as `unsigned char`).
- Lexer.IsSpace: false for every byte of 0x80 or above. The source passes a
  plain `char` to `std::isspace`; where `char` is signed such a byte is negative,
  and the call is undefined behaviour. That case is not modelled.
- Stack overflow on deep nesting, running out of memory, and the exception
  messages' text are not modelled. A `ParseError` keeps only the kind and the
  position.
- The condition `Pos > Content.length()` at line 280 can never hold; the model
  keeps only the `Content[Pos - 1] != '"'` half.
- RoundTrip.DocumentOfRendering: holds only for well-formed Objects whose keys and texts
  contain no `"` and no `\`. `ToString` writes them unescaped, so such text does
  not read back. For the general case the model proves the round trip only for
  single tokens written by the escaping writer `Quote` / `Escape`, which the
  header does not contain.
- Tree.ToString: `Indent` is a `nat`, where the source takes an `int`. A
  negative `Indent` makes `std::string(Indent, ' ')` throw, because the count
  converts to a huge `size_t`; that failure is not modelled. Every call inside
  the header passes 0, or `Indent + 2` from a call whose `Indent` is not
  negative.
- The Python and C++ example programs are demonstrations and are not modelled.
