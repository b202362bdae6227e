/**
 * The tokenizer of `VDFParser`: the whitespace and comment skipper
 * (`SkipWhitespace`) and the private token reader `ParseString(Content, Pos)`.
 *
 * The C++ code advances a `size_t Pos` by reference; here every step takes the
 * text and a position and returns the new position. Each loop of the source is a
 * method proved equal to a recursive specification function, and the lemmas of
 * this module are stated about those functions.
 */
module Lexer {
  import opened Results

  /** The failures `VDFParser` signals with `std::runtime_error`. */
  datatype ErrorKind =
    | UnexpectedEndOfInput
    | UnterminatedString
    | ExpectedOpenBrace
    | ExpectedCloseBrace

  /** An exception of the parser: its kind and the offset it reports or was raised at. */
  datatype ParseError = ParseError(kind: ErrorKind, pos: nat)

  /** `std::isspace` in the "C" locale: space, tab, LF, VT, FF and CR. */
  predicate IsSpace(c: char) {
    c == ' ' || c == '\t' || c == '\n' || c == '\U{0B}' || c == '\U{0C}' || c == '\r'
  }

  /** The bytes that end an unquoted token (and are left unconsumed). */
  predicate IsTokenEnd(c: char) {
    c == '\r' || c == '\n' || c == '\t' || c == ' ' || c == '{' || c == '}'
  }

  /** A `//` line comment starts at `p`. */
  predicate CommentAt(s: string, p: nat) {
    p + 1 < |s| && s[p] == '/' && s[p + 1] == '/'
  }

  /** Where the body of a line comment ends: at its `'\n'`, or at the end of the text. */
  function LineEnd(s: string, p: nat): (q: nat)
    requires p <= |s|
    ensures p <= q <= |s|
    ensures q == |s| || s[q] == '\n'
    ensures forall i :: p <= i < q ==> s[i] != '\n'
    decreases |s| - p
  {
    if p == |s| || s[p] == '\n' then p else LineEnd(s, p + 1)
  }

  /**
   * The position `SkipWhitespace` leaves the cursor at: the first position from
   * `p` on that is neither whitespace nor the start of a comment.
   */
  function WhitespaceEnd(s: string, p: nat): (q: nat)
    requires p <= |s|
    ensures p <= q <= |s|
    ensures q == |s| || !(IsSpace(s[q]) || CommentAt(s, q))
    ensures p < |s| && !IsSpace(s[p]) && !CommentAt(s, p) ==> q == p
    decreases |s| - p
  {
    if p == |s| then p
    else if IsSpace(s[p]) then WhitespaceEnd(s, p + 1)
    else if CommentAt(s, p) then WhitespaceEnd(s, LineEnd(s, p + 2))
    else p
  }

  /** `SkipWhitespace(Content, Pos)`. */
  method SkipWhitespace(s: string, p: nat) returns (q: nat)
    requires p <= |s|
    ensures q == WhitespaceEnd(s, p)
  {
    q := p;
    while q < |s|
      invariant p <= q <= |s|
      invariant WhitespaceEnd(s, q) == WhitespaceEnd(s, p)
      decreases |s| - q
    {
      var c := s[q];
      if IsSpace(c) {
        q := q + 1;
        continue;
      }
      if c == '/' && q + 1 < |s| && s[q + 1] == '/' {
        q := q + 2;
        ghost var bodyStart := q;
        while q < |s| && s[q] != '\n'
          invariant bodyStart <= q <= |s|
          invariant LineEnd(s, q) == LineEnd(s, bodyStart)
          decreases |s| - q
        {
          q := q + 1;
        }
        continue;
      }
      break;
    }
  }

  /** Skipping is idempotent: the cursor it leaves is one it would not move. */
  lemma SkipIdempotent(s: string, p: nat)
    requires p <= |s|
    ensures WhitespaceEnd(s, WhitespaceEnd(s, p)) == WhitespaceEnd(s, p)
  {
  }

  /** A run of whitespace is skipped as a whole. */
  lemma {:induction false} SkipSpaces(s: string, p: nat, k: nat)
    requires p + k <= |s|
    requires forall i :: p <= i < p + k ==> IsSpace(s[i])
    ensures WhitespaceEnd(s, p) == WhitespaceEnd(s, p + k)
    decreases k
  {
    if k > 0 {
      SkipSpaces(s, p + 1, k - 1);
    }
  }

  /**
   * Every byte the skipper passes over that is not whitespace lies on a `//`
   * comment that starts within the skipped range and has not yet reached its
   * newline.
   */
  lemma {:induction false} SkippedBlank(s: string, p: nat)
    requires p <= |s|
    ensures forall i :: p <= i < WhitespaceEnd(s, p) && !IsSpace(s[i]) ==>
              exists j :: p <= j <= i && CommentAt(s, j) && i < LineEnd(s, j)
    decreases |s| - p
  {
    if p < |s| {
      if IsSpace(s[p]) {
        SkippedBlank(s, p + 1);
      } else if CommentAt(s, p) {
        var e := LineEnd(s, p + 2);
        assert LineEnd(s, p) == e;
        SkippedBlank(s, e);
      }
    }
  }

  /** Every position on a comment line, up to its newline, has the same line end. */
  lemma {:induction false} LineEndWithin(s: string, p: nat, j: nat)
    requires p <= |s|
    requires p <= j <= LineEnd(s, p)
    ensures LineEnd(s, j) == LineEnd(s, p)
    decreases j - p
  {
    if j > p {
      LineEndWithin(s, p + 1, j);
    }
  }

  /**
   * The skipper never stops inside a comment: a `//` met in the skipped range is
   * passed over up to its newline.
   */
  lemma {:induction false} NoStopInsideComment(s: string, p: nat)
    requires p <= |s|
    ensures forall j :: p <= j < WhitespaceEnd(s, p) && CommentAt(s, j) ==>
              LineEnd(s, j) <= WhitespaceEnd(s, p)
    decreases |s| - p
  {
    if p < |s| {
      if IsSpace(s[p]) {
        NoStopInsideComment(s, p + 1);
      } else if CommentAt(s, p) {
        var e := LineEnd(s, p + 2);
        assert LineEnd(s, p) == e;
        NoStopInsideComment(s, e);
        forall j | p <= j < e && CommentAt(s, j)
          ensures LineEnd(s, j) == e
        {
          LineEndWithin(s, p, j);
        }
      }
    }
  }

  /** The character that the escape `\c` stands for. */
  function Unescape(c: char): char {
    match c
    case 'n' => '\n'
    case 'r' => '\r'
    case 't' => '\t'
    case _ => c
  }

  /**
   * The state the token loop ends in: the cursor, the decoded text, and whether
   * the loop left by `break` (`stopped`) rather than by running out of input.
   */
  datatype Scan = Scan(end: nat, text: string, stopped: bool)

  /**
   * The token loop of `ParseString(Content, Pos)` run from `p`, with the
   * `Escaped` flag initially `escaped`. A quoted token stops after its closing
   * quote; an unquoted one stops before a token-ending byte.
   */
  function ScanFrom(s: string, p: nat, quoted: bool, escaped: bool): (r: Scan)
    requires p <= |s|
    ensures p <= r.end <= |s|
    ensures !r.stopped ==> r.end == |s|
    ensures r.stopped && quoted ==> p < r.end && s[r.end - 1] == '"'
    ensures r.stopped && !quoted ==> r.end < |s| && IsTokenEnd(s[r.end])
    ensures r.stopped && !quoted && r.end == p ==> !escaped
    decreases |s| - p
  {
    if p == |s| then Scan(p, "", false)
    else if escaped then
      var r := ScanFrom(s, p + 1, quoted, false);
      Scan(r.end, [Unescape(s[p])] + r.text, r.stopped)
    else if s[p] == '\\' then ScanFrom(s, p + 1, quoted, true)
    else if quoted && s[p] == '"' then Scan(p + 1, "", true)
    else if !quoted && IsTokenEnd(s[p]) then Scan(p, "", true)
    else
      var r := ScanFrom(s, p + 1, quoted, false);
      Scan(r.end, [s[p]] + r.text, r.stopped)
  }

  /** A token read from the text: its decoded content and the cursor after it. */
  datatype Lexeme = Lexeme(text: string, end: nat)

  /**
   * What `ParseString(Content, Pos)` returns or throws. It skips whitespace,
   * fails at end of input, reads a quoted or unquoted token, and rejects a
   * quoted token when the byte before the final cursor is not `"`.
   */
  function TokenAt(s: string, p: nat): (r: Result<Lexeme, ParseError>)
    requires p <= |s|
    ensures r.Ok? ==> WhitespaceEnd(s, p) <= r.value.end <= |s|
    ensures r.Ok? && r.value.end == WhitespaceEnd(s, p) ==>
              r.value.end < |s| && (s[r.value.end] == '{' || s[r.value.end] == '}')
    ensures r.Err? ==> r.error.pos == |s|
    ensures r.Err? ==> r.error.kind == UnexpectedEndOfInput || r.error.kind == UnterminatedString
    ensures r == Err(ParseError(UnexpectedEndOfInput, |s|)) <==> WhitespaceEnd(s, p) == |s|
  {
    var q := WhitespaceEnd(s, p);
    if q == |s| then Err(ParseError(UnexpectedEndOfInput, q))
    else
      var quoted := s[q] == '"';
      var sc := ScanFrom(s, if quoted then q + 1 else q, quoted, false);
      if quoted && s[sc.end - 1] != '"' then Err(ParseError(UnterminatedString, sc.end))
      else Ok(Lexeme(sc.text, sc.end))
  }

  /** A scan that continues after `text` has been read. */
  function After(text: string, rest: Scan): Scan {
    Scan(rest.end, text + rest.text, rest.stopped)
  }

  lemma AfterChar(text: string, c: char, rest: Scan)
    ensures After(text, Scan(rest.end, [c] + rest.text, rest.stopped)) == After(text + [c], rest)
  {
    assert text + ([c] + rest.text) == text + [c] + rest.text;
  }

  /** The private `ParseString(Content, Pos)`: the token reader. */
  method ParseString(s: string, p: nat) returns (r: Result<Lexeme, ParseError>)
    requires p <= |s|
    ensures r == TokenAt(s, p)
  {
    var pos := SkipWhitespace(s, p);
    if pos >= |s| {
      return Err(ParseError(UnexpectedEndOfInput, pos));
    }
    var quoted := s[pos] == '"';
    if quoted {
      pos := pos + 1;
    }
    var text := "";
    var escaped := false;
    ghost var start := pos;
    while pos < |s|
      invariant start <= pos <= |s|
      invariant ScanFrom(s, start, quoted, false) == After(text, ScanFrom(s, pos, quoted, escaped))
      decreases |s| - pos
    {
      var c := s[pos];
      ghost var rest := ScanFrom(s, pos + 1, quoted, false);
      pos := pos + 1;
      if escaped {
        AfterChar(text, Unescape(c), rest);
        text := text + [Unescape(c)];
        escaped := false;
      } else if c == '\\' {
        escaped := true;
      } else if quoted && c == '"' {
        assert ScanFrom(s, pos - 1, quoted, false) == Scan(pos, "", true);
        break;
      } else if !quoted && IsTokenEnd(c) {
        pos := pos - 1;
        assert ScanFrom(s, pos, quoted, false) == Scan(pos, "", true);
        break;
      } else {
        AfterChar(text, c, rest);
        text := text + [c];
      }
    }
    assert ScanFrom(s, start, quoted, false) == Scan(pos, text, ScanFrom(s, start, quoted, false).stopped);
    if quoted && s[pos - 1] != '"' {
      return Err(ParseError(UnterminatedString, pos));
    }
    r := Ok(Lexeme(text, pos));
  }

  /**
   * How a writer escapes `c` so that the token reader gives `c` back. With
   * `bare` it also escapes the bytes that would end, skip or re-route an
   * unquoted token (whitespace, braces, `/`).
   */
  function EscapeChar(c: char, bare: bool): string {
    if c == '\n' then "\\n"
    else if c == '\r' then "\\r"
    else if c == '\t' then "\\t"
    else if c == '\\' || c == '"' then ['\\', c]
    else if bare && (IsSpace(c) || c == '{' || c == '}' || c == '/') then ['\\', c]
    else [c]
  }

  /** `t` with every character escaped by `EscapeChar`. */
  function Escape(t: string, bare: bool): string {
    if t == [] then "" else EscapeChar(t[0], bare) + Escape(t[1..], bare)
  }

  /** `t` written as a quoted token. */
  function Quote(t: string): string {
    "\"" + Escape(t, false) + "\""
  }

  /** The token loop from `p` with `Escaped` clear, named once for the lemmas below. */
  function Scanned(s: string, p: nat, quoted: bool): Scan
    requires p <= |s|
  {
    ScanFrom(s, p, quoted, false)
  }

  /** Any escape other than `\n`, `\r` and `\t` stands for the escaped byte itself. */
  lemma OtherEscape(s: string, p: nat, quoted: bool)
    requires p + 1 < |s| && s[p] == '\\'
    requires s[p + 1] != 'n' && s[p + 1] != 'r' && s[p + 1] != 't'
    ensures ScanFrom(s, p, quoted, false) == After([s[p + 1]], ScanFrom(s, p + 2, quoted, false))
  {
  }

  /** The token loop decodes the escape of one character back to that character. */
  lemma ScanOneEscaped(s: string, p: nat, c: char, quoted: bool)
    requires p + |EscapeChar(c, !quoted)| <= |s|
    requires s[p] == EscapeChar(c, !quoted)[0]
    requires |EscapeChar(c, !quoted)| == 2 ==> s[p + 1] == EscapeChar(c, !quoted)[1]
    ensures Scanned(s, p, quoted) == After([c], Scanned(s, p + |EscapeChar(c, !quoted)|, quoted))
  {
    var e := EscapeChar(c, !quoted);
    if |e| == 2 {
      assert Unescape(e[1]) == c;
      assert ScanFrom(s, p, quoted, false) == ScanFrom(s, p + 1, quoted, true);
    }
  }

  /** `x` is written in `s` at `p`. */
  predicate At(s: string, p: nat, x: string) {
    p + |x| <= |s| && forall i :: 0 <= i < |x| ==> s[p + i] == x[i]
  }

  lemma AtSplit(s: string, p: nat, x: string, y: string)
    requires At(s, p, x + y)
    ensures At(s, p, x) && At(s, p + |x|, y)
  {
    forall i | 0 <= i < |x|
      ensures s[p + i] == x[i]
    {
      assert (x + y)[i] == x[i];
    }
    forall i | 0 <= i < |y|
      ensures s[p + |x| + i] == y[i]
    {
      assert (x + y)[|x| + i] == y[i];
    }
  }

  lemma AtChar(s: string, p: nat, x: string, i: nat)
    requires At(s, p, x) && i < |x|
    ensures s[p + i] == x[i]
  {
  }

  /** Every suffix of the text is written where it starts. */
  lemma AtSuffix(s: string, p: nat)
    requires p <= |s|
    ensures At(s, p, s[p..])
  {
  }

  /** Two loop segments, the first ending where the second starts, decode to the concatenation. */
  lemma AfterAfter(x: string, y: string, c: Scan)
    ensures After(x, After(y, c)) == After(x + y, c)
  {
    assert x + (y + c.text) == (x + y) + c.text;
  }

  /** An escaped text written at `p`: the escape of its first character, then the rest. */
  lemma EscapedHead(s: string, p: nat, t: string, bare: bool)
    requires t != [] && At(s, p, Escape(t, bare))
    ensures var e := EscapeChar(t[0], bare);
            p + |e| <= |s| && s[p] == e[0] && (|e| == 2 ==> s[p + 1] == e[1]) &&
            At(s, p + |e|, Escape(t[1..], bare)) &&
            |Escape(t, bare)| == |e| + |Escape(t[1..], bare)|
  {
    var e := EscapeChar(t[0], bare);
    var rest := Escape(t[1..], bare);
    assert Escape(t, bare) == e + rest;
    AtSplit(s, p, e, rest);
    assert s[p + 0] == e[0];
  }

  /** The token loop reads the escape of the first character of an escaped text. */
  lemma ScanHead(s: string, p: nat, t: string, quoted: bool) returns (q: nat)
    requires t != [] && At(s, p, Escape(t, !quoted))
    ensures p < q <= |s| && At(s, q, Escape(t[1..], !quoted))
    ensures q + |Escape(t[1..], !quoted)| == p + |Escape(t, !quoted)|
    ensures Scanned(s, p, quoted) == After([t[0]], Scanned(s, q, quoted))
  {
    q := p + |EscapeChar(t[0], !quoted)|;
    EscapedHead(s, p, t, !quoted);
    ScanOneEscaped(s, p, t[0], quoted);
  }

  /** The token loop decodes an escaped text back to the text, in both kinds of token. */
  lemma {:induction false} ScanEscaped(s: string, p: nat, t: string, quoted: bool)
    requires At(s, p, Escape(t, !quoted))
    ensures p + |Escape(t, !quoted)| <= |s|
    ensures Scanned(s, p, quoted) == After(t, Scanned(s, p + |Escape(t, !quoted)|, quoted))
    decreases |t|
  {
    if t != [] {
      var q := ScanHead(s, p, t, quoted);
      ScanEscaped(s, q, t[1..], quoted);
      AfterAfter([t[0]], t[1..], Scanned(s, p + |Escape(t, !quoted)|, quoted));
      assert [t[0]] + t[1..] == t;
    } else {
      assert t + Scanned(s, p, quoted).text == Scanned(s, p, quoted).text;
    }
  }

  /** Reading a quoted token written by `Quote` gives the text back, and the cursor after it. */
  lemma QuotedTokenRoundTrip(s: string, p: nat, t: string)
    requires At(s, p, Quote(t))
    ensures TokenAt(s, p) == Ok(Lexeme(t, p + |Quote(t)|))
  {
    var e := Escape(t, false);
    AtSplit(s, p, "\"" + e, "\"");
    AtSplit(s, p, "\"", e);
    AtChar(s, p, "\"", 0);
    AtChar(s, p + 1 + |e|, "\"", 0);
    assert WhitespaceEnd(s, p) == p;
    ScanEscaped(s, p + 1, t, true);
    assert ScanFrom(s, p + 1 + |e|, true, false) == Scan(p + 2 + |e|, "", true);
    assert t + "" == t;
  }

  /** The first character of a bare-escaped text is never whitespace, a quote or a slash. */
  lemma WrittenBare(s: string, p: nat, t: string)
    requires t != []
    requires At(s, p, Escape(t, true))
    ensures !IsSpace(s[p]) && s[p] != '"' && s[p] != '/'
  {
    var e := Escape(t, true);
    assert e == EscapeChar(t[0], true) + Escape(t[1..], true);
    AtChar(s, p, e, 0);
  }

  /**
   * Reading an unquoted token written by `Escape(t, true)` gives `t` back, when
   * the token is followed by the end of input or by a byte that ends it.
   */
  lemma BareTokenRoundTrip(s: string, p: nat, t: string)
    requires t != []
    requires At(s, p, Escape(t, true))
    requires p + |Escape(t, true)| == |s| || IsTokenEnd(s[p + |Escape(t, true)|])
    ensures TokenAt(s, p) == Ok(Lexeme(t, p + |Escape(t, true)|))
  {
    WrittenBare(s, p, t);
    assert WhitespaceEnd(s, p) == p;
    ScanEscaped(s, p, t, false);
    assert t + "" == t;
  }

  /**
   * A quoted token is rejected as unterminated exactly when its loop ran out of
   * input and the last byte of the input is not `"`: input that ends in an
   * escaped quote, or in a lone opening quote, is accepted.
   */
  lemma QuotedTokenRejected(s: string, p: nat)
    requires p <= |s|
    requires WhitespaceEnd(s, p) < |s| && s[WhitespaceEnd(s, p)] == '"'
    ensures TokenAt(s, p).Err? <==>
              !ScanFrom(s, WhitespaceEnd(s, p) + 1, true, false).stopped && s[|s| - 1] != '"'
  {
  }

  /** A token that starts at a brace is empty and leaves the cursor on the brace. */
  lemma TokenAtBrace(s: string, p: nat)
    requires p <= |s|
    requires WhitespaceEnd(s, p) < |s|
    requires s[WhitespaceEnd(s, p)] == '{' || s[WhitespaceEnd(s, p)] == '}'
    ensures TokenAt(s, p) == Ok(Lexeme("", WhitespaceEnd(s, p)))
  {
  }

  /** Examples of the quoted-token end check. */
  lemma UnterminatedExamples()
    ensures TokenAt("\"abc\\\"", 0) == Ok(Lexeme("abc\"", 6))
    ensures TokenAt("\"", 0) == Ok(Lexeme("", 1))
    ensures TokenAt("\"abc", 0) == Err(ParseError(UnterminatedString, 4))
    ensures TokenAt("\"ab\\", 0) == Err(ParseError(UnterminatedString, 4))
  {
    var a := "\"abc\\\"";
    assert WhitespaceEnd(a, 0) == 0;
    assert ScanFrom(a, 5, true, true) == Scan(6, "\"", false);
    assert ScanFrom(a, 3, true, false) == Scan(6, "c\"", false);
    assert ScanFrom(a, 1, true, false) == Scan(6, "abc\"", false);
    var b := "\"";
    assert WhitespaceEnd(b, 0) == 0;
    var c := "\"abc";
    assert WhitespaceEnd(c, 0) == 0;
    assert ScanFrom(c, 3, true, false) == Scan(4, "c", false);
    assert ScanFrom(c, 1, true, false) == Scan(4, "abc", false);
    var d := "\"ab\\";
    assert WhitespaceEnd(d, 0) == 0;
    assert ScanFrom(d, 3, true, false) == Scan(4, "", false);
    assert ScanFrom(d, 1, true, false) == Scan(4, "ab", false);
  }

  /** `\a` stands for `a`, in an unquoted and in a quoted token. */
  lemma OtherEscapeExamples()
    ensures TokenAt("\\a", 0) == Ok(Lexeme("a", 2))
    ensures TokenAt("\"\\a\"", 0) == Ok(Lexeme("a", 4))
  {
    var u := "\\a";
    assert WhitespaceEnd(u, 0) == 0;
    OtherEscape(u, 0, false);
    assert ScanFrom(u, 2, false, false) == Scan(2, "", false);
    assert ScanFrom(u, 0, false, false) == Scan(2, "a", false);
    var q := "\"\\a\"";
    assert WhitespaceEnd(q, 0) == 0;
    OtherEscape(q, 1, true);
    assert ScanFrom(q, 3, true, false) == Scan(4, "", true);
    assert ScanFrom(q, 1, true, false) == Scan(4, "a", true);
  }

  /** Escapes are decoded in unquoted tokens too, and a token stops before a space or brace. */
  lemma BareTokenExamples()
    ensures TokenAt("  a\\tb c", 0) == Ok(Lexeme("a\tb", 6))
    ensures TokenAt("a\\ b c", 0) == Ok(Lexeme("a b", 4))
    ensures TokenAt("key{", 0) == Ok(Lexeme("key", 3))
  {
    var a := "  a\\tb c";
    assert WhitespaceEnd(a, 2) == 2;
    assert WhitespaceEnd(a, 0) == 2;
    assert ScanFrom(a, 5, false, false) == Scan(6, "b", true);
    assert ScanFrom(a, 3, false, false) == Scan(6, "\tb", true);
    assert ScanFrom(a, 2, false, false) == Scan(6, "a\tb", true);
    var b := "a\\ b c";
    assert WhitespaceEnd(b, 0) == 0;
    assert ScanFrom(b, 3, false, false) == Scan(4, "b", true);
    assert ScanFrom(b, 1, false, false) == Scan(4, " b", true);
    assert ScanFrom(b, 0, false, false) == Scan(4, "a b", true);
    var c := "key{";
    assert WhitespaceEnd(c, 0) == 0;
    assert ScanFrom(c, 2, false, false) == Scan(3, "y", true);
    assert ScanFrom(c, 0, false, false) == Scan(3, "key", true);
  }
}
