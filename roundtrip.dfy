/**
 * What parsing gives back for the text `VDFNode::ToString` writes. `ToString`
 * quotes keys and String values without escaping them, so the property holds
 * for trees whose keys and texts contain neither `"` nor `\`. The rendering of
 * an Object is brace-delimited, so at top level it parses as the value of an
 * empty key.
 */
module RoundTrip {
  import opened Results
  import opened Lexer
  import opened Tree
  import opened Parser
  import Navigation

  /**
   * `WhitespaceEnd`, `ValueAt`, `MembersFrom` and `MemberAt` under names of their own. The
   * lemmas below are stated with these, so that a proof unfolds the parser only
   * where it means to.
   */
  function Skipped(s: string, p: nat): nat
    requires p <= |s|
  {
    WhitespaceEnd(s, p)
  }

  function ValueResult(s: string, p: nat): Result<Parsed, ParseError>
    requires p <= |s|
  {
    ValueAt(s, p)
  }

  function MembersResult(s: string, p: nat, acc: seq<Entry>): Result<Parsed, ParseError>
    requires p <= |s|
  {
    MembersFrom(s, p, acc)
  }

  function MemberResult(s: string, p: nat): Result<Member, ParseError>
    requires p <= |s|
  {
    MemberAt(s, p)
  }

  /** Text `ToString` can write without it being misread: no quote, no backslash. */
  predicate Plain(t: string) {
    forall i :: 0 <= i < |t| ==> t[i] != '"' && t[i] != '\\'
  }

  /** A tree all of whose keys and texts are plain. */
  predicate PlainTree(n: Node) {
    match n
    case Str(t) => Plain(t)
    case Obj(es) => forall i :: 0 <= i < |es| ==> Plain(es[i].key) && PlainTree(es[i].value)
  }

  /** The quoted-token loop copies plain bytes as they are. */
  lemma {:induction false} ScanPlain(s: string, p: nat, q: nat)
    requires p <= q <= |s|
    requires forall i :: p <= i < q ==> s[i] != '"' && s[i] != '\\'
    ensures ScanFrom(s, p, true, false) == After(s[p..q], ScanFrom(s, q, true, false))
    decreases q - p
  {
    if p < q {
      ScanPlain(s, p + 1, q);
      AfterAfter([s[p]], s[p + 1..q], ScanFrom(s, q, true, false));
      assert [s[p]] + s[p + 1..q] == s[p..q];
    } else {
      assert s[p..q] + ScanFrom(s, q, true, false).text == ScanFrom(s, q, true, false).text;
    }
  }

  /** Where the bytes of a quoted plain text stand. */
  lemma QuotedLayout(s: string, p: nat, t: string)
    requires Plain(t)
    requires At(s, p, "\"" + t + "\"")
    ensures p + |t| + 2 <= |s| && s[p] == '"' && s[p + 1 + |t|] == '"'
    ensures s[p + 1..p + 1 + |t|] == t
    ensures forall i :: p + 1 <= i < p + 1 + |t| ==> s[i] != '"' && s[i] != '\\'
  {
    var q := p + 1 + |t|;
    AtSplit(s, p, "\"" + t, "\"");
    AtSplit(s, p, "\"", t);
    AtChar(s, p, "\"", 0);
    AtChar(s, q, "\"", 0);
    forall j | 0 <= j < |t|
      ensures s[p + 1 + j] == t[j]
    {
      AtChar(s, p + 1, t, j);
    }
    assert s[p + 1..q] == t;
    forall i | p + 1 <= i < q
      ensures s[i] != '"' && s[i] != '\\'
    {
      AtChar(s, p + 1, t, i - p - 1);
    }
  }

  /** `ParseString(Content, Pos)` at an opening quote whose scan stops. */
  lemma TokenAtQuoted(s: string, p: nat, r: Scan)
    requires p < |s| && s[p] == '"'
    requires ScanFrom(s, p + 1, true, false) == r && r.stopped
    ensures TokenAt(s, p) == Ok(Lexeme(r.text, r.end))
  {
    assert Skipped(s, p) == p;
  }

  /** A plain text written in quotes reads back as a token. */
  lemma PlainQuotedToken(s: string, p: nat, t: string)
    requires Plain(t)
    requires At(s, p, "\"" + t + "\"")
    ensures TokenAt(s, p) == Ok(Lexeme(t, p + |t| + 2))
  {
    var q := p + 1 + |t|;
    QuotedLayout(s, p, t);
    ScanPlain(s, p + 1, q);
    assert ScanFrom(s, q, true, false) == Scan(q + 1, "", true);
    assert t + "" == t;
    TokenAtQuoted(s, p, Scan(q + 1, t, true));
  }

  /** Indentation written at `p` is skipped. */
  lemma SkipIndent(s: string, p: nat, k: nat, rest: string)
    requires At(s, p, Spaces(k) + rest)
    ensures At(s, p + k, rest)
    ensures Skipped(s, p) == Skipped(s, p + k)
  {
    AtSplit(s, p, Spaces(k), rest);
    SkipSpacesAt(s, p, k);
  }

  /** Spaces written at `p` are skipped. */
  lemma SkipSpacesAt(s: string, p: nat, k: nat)
    requires At(s, p, Spaces(k))
    ensures Skipped(s, p) == Skipped(s, p + k)
  {
    forall i | p <= i < p + k
      ensures IsSpace(s[i])
    {
      AtChar(s, p, Spaces(k), i - p);
    }
    SkipSpaces(s, p, k);
  }

  /** Parsing a value depends only on where the whitespace before it ends. */
  lemma ValueAfterNewline(s: string, k: nat, v: Parsed)
    requires k < |s| && Skipped(s, k) == Skipped(s, k + 1)
    requires ValueResult(s, k + 1) == Ok(v)
    ensures ValueResult(s, Skipped(s, k)) == Ok(v)
  {
    SkipIdempotent(s, k + 1);
  }

  lemma AppendAssoc(a: string, b: string, c: string)
    ensures (a + b) + c == a + (b + c)
  {
  }

  lemma ConsAppend(x: seq<Entry>, y: seq<Entry>)
    requires x != []
    ensures [x[0]] + (x[1..] + y) == x + y
  {
    assert x == [x[0]] + x[1..];
  }

  /** Entries rendered one after another, from the first. */
  lemma {:induction false} RenderEntriesCons(es: seq<Entry>, indent: nat)
    requires es != []
    ensures RenderEntries(es, indent) == RenderEntry(es[0], indent) + RenderEntries(es[1..], indent)
    decreases |es|
  {
    if |es| > 1 {
      var init := es[..|es| - 1];
      RenderEntriesCons(init, indent);
      RenderEntriesTail(es, indent);
      assert init[0] == es[0];
      AppendAssoc(RenderEntry(es[0], indent), RenderEntries(init[1..], indent), RenderEntry(es[|es| - 1], indent));
    } else {
      assert es[1..] == [];
      assert es[..0] == [];
    }
  }

  /** The entries after the first, rendered: those before the last, then the last. */
  lemma RenderEntriesTail(es: seq<Entry>, indent: nat)
    requires |es| > 1
    ensures RenderEntries(es[1..], indent) ==
            RenderEntries(es[..|es| - 1][1..], indent) + RenderEntry(es[|es| - 1], indent)
  {
    assert es[..|es| - 1][1..] == es[1..][..|es[1..]| - 1];
    assert es[1..][|es[1..]| - 1] == es[|es| - 1];
  }

  /** In sorted entries, the next entry goes at the end of those before it. */
  lemma InsertNext(es: seq<Entry>, i: nat)
    requires Sorted(es) && i < |es|
    ensures Insert(es[..i], es[i].key, es[i].value) == es[..i + 1]
  {
    forall j | 0 <= j < i
      ensures KeyLess(es[j].key, es[i].key)
    {
      SortedKeysDistinct(es, j, i);
    }
    InsertAfterAll(es[..i], es[i].key, es[i].value);
    assert es[..i + 1] == es[..i] + [es[i]];
  }

  /** A key greater than every key present is appended. */
  lemma {:induction false} InsertAfterAll(es: seq<Entry>, k: string, v: Node)
    requires forall j :: 0 <= j < |es| ==> KeyLess(es[j].key, k)
    ensures Insert(es, k, v) == es + [Entry(k, v)]
    decreases |es|
  {
    if es != [] {
      assert KeyLess(es[0].key, k);
      KeyLessIrreflexive(k);
      assert es[0].key != k;
      if KeyLess(k, es[0].key) {
        KeyLessTransitive(k, es[0].key, k);
      }
      assert Insert(es, k, v) == [es[0]] + Insert(es[1..], k, v);
      InsertAfterAll(es[1..], k, v);
      ConsAppend(es, [Entry(k, v)]);
    }
  }

  /** Five pieces written one after another. */
  lemma AtSplit5(s: string, p: nat, a: string, b: string, c: string, d: string, e: string)
    requires At(s, p, a + b + c + d + e)
    ensures At(s, p, a) && At(s, p + |a|, b) && At(s, p + |a| + |b|, c)
    ensures At(s, p + |a| + |b| + |c|, d) && At(s, p + |a| + |b| + |c| + |d|, e)
  {
    AtSplit(s, p, a + b + c + d, e);
    AtSplit(s, p, a + b + c, d);
    AtSplit(s, p, a + b, c);
    AtSplit(s, p, a, b);
  }

  lemma SpacesAdd(k: nat)
    ensures Spaces(k) + "  " == Spaces(k + 2)
  {
    assert Spaces(k + 2) == Spaces(k) + " " + " ";
  }

  /** An entry's two lines, as the pieces the parser reads. */
  lemma RenderEntryPieces(e: Entry, indent: nat)
    ensures RenderEntry(e, indent) ==
            Spaces(indent + 2) + ("\"" + e.key + "\"") + "\n" + Render(e.value, indent + 2) + "\n"
  {
    SpacesAdd(indent);
  }

  /** What follows an Object's `{` and newline once the entries before `i` are read. */
  function Body(es: seq<Entry>, i: nat, indent: nat): string
    requires i <= |es|
    decreases |es| - i
  {
    if i == |es| then Spaces(indent) + "}" else RenderEntry(es[i], indent) + Body(es, i + 1, indent)
  }

  /** `Body` is the rest of what `ToString` writes for the Object. */
  lemma {:induction false} BodyRendersRest(es: seq<Entry>, i: nat, indent: nat)
    requires i <= |es|
    ensures Body(es, i, indent) == RenderEntries(es[i..], indent) + Spaces(indent) + "}"
    decreases |es| - i
  {
    if i == |es| {
      assert es[i..] == [];
    } else {
      BodyRendersRest(es, i + 1, indent);
      RenderEntriesCons(es[i..], indent);
      assert es[i..][0] == es[i] && es[i..][1..] == es[i + 1..];
      var a := RenderEntry(es[i], indent);
      var b := RenderEntries(es[i + 1..], indent);
      assert a + (b + Spaces(indent) + "}") == (a + b) + Spaces(indent) + "}";
    }
  }

  /** `ParseValue` at a String token. */
  lemma ValueAtToken(s: string, p: nat, q: nat, t: Lexeme)
    requires p <= |s| && q == Skipped(s, p) < |s| && s[q] != '{'
    requires TokenAt(s, q) == Ok(t)
    ensures ValueResult(s, p) == Ok(Parsed(Str(t.text), t.end))
  {
  }

  /** `ParseValue` at a `{` followed by a newline. */
  lemma ValueAtObject(s: string, p: nat, q: nat)
    requires p <= |s| && q == Skipped(s, p) && q + 2 <= |s| && s[q] == '{'
    requires Skipped(s, q + 1) == Skipped(s, q + 2)
    ensures ValueResult(s, p) == MembersResult(s, Skipped(s, q + 2), [])
  {
    assert ValueAt(s, p) == ObjectAt(s, q);
  }

  /** One member read: a key token, then a value after the whitespace. */
  lemma MemberAtSteps(s: string, p: nat, key: Lexeme, v: Parsed)
    requires p <= |s|
    requires TokenAt(s, p) == Ok(key)
    requires ValueResult(s, Skipped(s, key.end)) == Ok(v)
    ensures MemberResult(s, p) == Ok(Member(key.text, v.node, Skipped(s, v.end)))
  {
  }

  /** The object loop goes on past one member. */
  lemma MembersStep(s: string, p: nat, acc: seq<Entry>, m: Member)
    requires p < |s| && s[p] != '}'
    requires MemberResult(s, p) == Ok(m)
    ensures MembersResult(s, p, acc) == MembersResult(s, m.end, Insert(acc, m.key, m.value))
  {
  }

  /** The rendering of a plain, well-formed node parses back to the node. */
  lemma {:induction false} ValueRendered(s: string, p: nat, n: Node, indent: nat)
    requires WellFormed(n) && PlainTree(n)
    requires At(s, p, Render(n, indent))
    ensures ValueResult(s, p) == Ok(Parsed(n, p + |Render(n, indent)|))
    decreases n, 2
  {
    match n
    case Str(t) => StringRendered(s, p, t, indent);
    case Obj(es) => ObjectRendered(s, p, es, indent);
  }

  lemma StringRendered(s: string, p: nat, t: string, indent: nat)
    requires Plain(t)
    requires At(s, p, Render(Str(t), indent))
    ensures ValueResult(s, p) == Ok(Parsed(Str(t), p + |Render(Str(t), indent)|))
  {
    var q := p + indent;
    var quoted := "\"" + t + "\"";
    assert Render(Str(t), indent) == Spaces(indent) + quoted;
    SkipIndent(s, p, indent, quoted);
    AtChar(s, q, quoted, 0);
    assert Skipped(s, q) == q;
    PlainQuotedToken(s, q, t);
    ValueAtToken(s, p, q, Lexeme(t, q + |t| + 2));
  }

  lemma {:induction false} ObjectRendered(s: string, p: nat, es: seq<Entry>, indent: nat)
    requires WellFormed(Obj(es)) && PlainTree(Obj(es))
    requires At(s, p, Render(Obj(es), indent))
    ensures ValueResult(s, p) == Ok(Parsed(Obj(es), p + |Render(Obj(es), indent)|))
    decreases Obj(es), 1
  {
    var body := Body(es, 0, indent);
    RenderObjectPieces(es, indent);
    OpeningLayout(s, p, indent, body);
    MembersRendered(s, p + indent + 2, es, 0, [], indent);
    ObjectFromBody(s, p, indent, es, body, |Render(Obj(es), indent)|);
  }

  /** `ParseValue` at an opening line whose body the member loop reads to an Object. */
  lemma ObjectFromBody(s: string, p: nat, k: nat, es: seq<Entry>, body: string, len: nat)
    requires len == k + 2 + |body|
    requires p + k + 2 <= |s| && s[p + k] == '{'
    requires Skipped(s, p) == p + k
    requires Skipped(s, p + k + 1) == Skipped(s, p + k + 2)
    requires MembersResult(s, Skipped(s, p + k + 2), []) == Ok(Parsed(Obj(es), p + k + 2 + |body|))
    ensures ValueResult(s, p) == Ok(Parsed(Obj(es), p + len))
  {
    ValueAtObject(s, p, p + k);
  }

  /** An Object's rendering: its opening line, then its body. */
  lemma RenderObjectPieces(es: seq<Entry>, indent: nat)
    ensures Render(Obj(es), indent) == Spaces(indent) + "{" + "\n" + Body(es, 0, indent)
    ensures |Render(Obj(es), indent)| == indent + 2 + |Body(es, 0, indent)|
  {
    BodyRendersRest(es, 0, indent);
    assert es[0..] == es;
  }

  /** Where an Object's opening line and the text after it stand. */
  lemma OpeningLayout(s: string, p: nat, k: nat, body: string)
    requires At(s, p, Spaces(k) + "{" + "\n" + body)
    ensures p + k + 2 <= |s| && s[p + k] == '{'
    ensures Skipped(s, p) == p + k
    ensures Skipped(s, p + k + 1) == Skipped(s, p + k + 2)
    ensures At(s, p + k + 2, body)
  {
    AtSplit(s, p, Spaces(k) + "{" + "\n", body);
    AtSplit(s, p, Spaces(k) + "{", "\n");
    AtSplit(s, p, Spaces(k), "{");
    SkipSpacesAt(s, p, k);
    AtChar(s, p + k, "{", 0);
    AtChar(s, p + k + 1, "\n", 0);
    assert Skipped(s, p + k) == p + k;
    SkipSpaces(s, p + k + 1, 1);
  }

  /** The object loop at the closing `}`. */
  lemma MembersClosed(s: string, p: nat, es: seq<Entry>, indent: nat)
    requires At(s, p, Body(es, |es|, indent))
    ensures MembersResult(s, Skipped(s, p), es) == Ok(Parsed(Obj(es), p + |Body(es, |es|, indent)|))
  {
    SkipIndent(s, p, indent, "}");
    AtChar(s, p + indent, "}", 0);
  }

  /** The rendering of the entries from `i` on parses to the whole object. */
  lemma {:induction false} MembersRendered(s: string, p: nat, es: seq<Entry>, i: nat, acc: seq<Entry>, indent: nat)
    requires WellFormed(Obj(es)) && PlainTree(Obj(es))
    requires i <= |es| && acc == es[..i]
    requires At(s, p, Body(es, i, indent))
    ensures MembersResult(s, Skipped(s, p), acc) == Ok(Parsed(Obj(es), p + |Body(es, i, indent)|))
    decreases es, |es| - i, 1
  {
    if i == |es| {
      assert acc == es;
      MembersClosed(s, p, es, indent);
    } else {
      var m := EntryRendered(s, p, es, i, indent);
      MembersRendered(s, m, es, i + 1, es[..i + 1], indent);
    }
  }

  /** One rendered entry takes the object loop on to the next. */
  lemma {:induction false} EntryRendered(s: string, p: nat, es: seq<Entry>, i: nat, indent: nat)
    returns (m: nat)
    requires WellFormed(Obj(es)) && PlainTree(Obj(es))
    requires i < |es|
    requires At(s, p, Body(es, i, indent))
    ensures At(s, m, Body(es, i + 1, indent))
    ensures m + |Body(es, i + 1, indent)| == p + |Body(es, i, indent)|
    ensures MembersResult(s, Skipped(s, p), es[..i]) == MembersResult(s, Skipped(s, m), es[..i + 1])
    decreases es, |es| - i, 0
  {
    var e := es[i];
    var entry := RenderEntry(e, indent);
    AtSplit(s, p, entry, Body(es, i + 1, indent));
    var mem;
    m, mem := EntryMember(s, p, e, indent);
    InsertNext(es, i);
    MembersStep(s, Skipped(s, p), es[..i], mem);
    assert Insert(es[..i], mem.key, mem.value) == es[..i + 1];
    assert |Body(es, i, indent)| == |entry| + |Body(es, i + 1, indent)|;
  }

  /**
   * Where the pieces of an entry's two lines stand (indentation, quoted key,
   * newline, value, newline), and what skipping whitespace does between them.
   */
  lemma LinesLayout(s: string, p: nat, k: nat, key: string, value: string) returns (k1: nat, k2: nat)
    requires key != [] && key[0] == '"'
    requires At(s, p, Spaces(k) + key + "\n" + value + "\n")
    ensures k1 == p + k + |key| && k2 == k1 + 1 + |value| && k2 < |s|
    ensures Skipped(s, p) == p + k && s[p + k] == '"'
    ensures At(s, p + k, key) && At(s, k1 + 1, value)
    ensures Skipped(s, k1) == Skipped(s, k1 + 1)
    ensures Skipped(s, k2) == Skipped(s, k2 + 1)
  {
    AtSplit5(s, p, Spaces(k), key, "\n", value, "\n");
    SkipSpacesAt(s, p, k);
    AtChar(s, p + k, key, 0);
    assert Skipped(s, p + k) == p + k;
    k1 := p + k + |key|;
    SkipNewline(s, k1);
    k2 := k1 + 1 + |value|;
    SkipNewline(s, k2);
  }

  /** A newline written at `k` is skipped. */
  lemma SkipNewline(s: string, k: nat)
    requires At(s, k, "\n")
    ensures k < |s| && Skipped(s, k) == Skipped(s, k + 1)
  {
    AtChar(s, k, "\n", 0);
    SkipSpaces(s, k, 1);
  }

  /** `LinesLayout` for a rendered entry. */
  lemma EntryLayout(s: string, p: nat, e: Entry, indent: nat) returns (k1: nat, k2: nat)
    requires At(s, p, RenderEntry(e, indent))
    ensures k1 == p + indent + 2 + |e.key| + 2
    ensures k2 == k1 + 1 + |Render(e.value, indent + 2)| && k2 + 1 == p + |RenderEntry(e, indent)|
    ensures k2 < |s|
    ensures Skipped(s, p) == p + indent + 2 && s[p + indent + 2] == '"'
    ensures At(s, p + indent + 2, "\"" + e.key + "\"")
    ensures Skipped(s, k1) == Skipped(s, k1 + 1)
    ensures At(s, k1 + 1, Render(e.value, indent + 2))
    ensures Skipped(s, k2) == Skipped(s, k2 + 1)
  {
    var key := "\"" + e.key + "\"";
    var value := Render(e.value, indent + 2);
    RenderEntryPieces(e, indent);
    k1, k2 := LinesLayout(s, p, indent + 2, key, value);
  }

  /** A rendered entry parses to its key and value. */
  lemma {:induction false} EntryMember(s: string, p: nat, e: Entry, indent: nat)
    returns (m: nat, mem: Member)
    requires Plain(e.key) && WellFormed(e.value) && PlainTree(e.value)
    requires At(s, p, RenderEntry(e, indent))
    ensures m == p + |RenderEntry(e, indent)| && m <= |s|
    ensures mem == Member(e.key, e.value, Skipped(s, m))
    ensures Skipped(s, p) < |s| && s[Skipped(s, p)] != '}'
    ensures MemberResult(s, Skipped(s, p)) == Ok(mem)
    decreases e, 3
  {
    var k1, k2 := EntryLayout(s, p, e, indent);
    ValueRendered(s, k1 + 1, e.value, indent + 2);
    m := k2 + 1;
    mem := KeyThenValue(s, p, e, indent, k1, k2, m);
  }

  /** An entry's quoted key read, and its value parsed, make one member. */
  lemma KeyThenValue(s: string, p: nat, e: Entry, indent: nat, k1: nat, k2: nat, m: nat)
    returns (mem: Member)
    requires Plain(e.key)
    requires k1 == p + indent + 2 + |e.key| + 2
    requires k2 == k1 + 1 + |Render(e.value, indent + 2)| && k2 < |s|
    requires Skipped(s, p) == p + indent + 2
    requires At(s, p + indent + 2, "\"" + e.key + "\"")
    requires Skipped(s, k1) == Skipped(s, k1 + 1)
    requires Skipped(s, k2) == Skipped(s, k2 + 1) && m == k2 + 1
    requires ValueResult(s, k1 + 1) == Ok(Parsed(e.value, k1 + 1 + |Render(e.value, indent + 2)|))
    ensures mem == Member(e.key, e.value, Skipped(s, m))
    ensures Skipped(s, p) < |s| && s[Skipped(s, p)] != '}'
    ensures MemberResult(s, Skipped(s, p)) == Ok(mem)
  {
    var k0 := p + indent + 2;
    PlainQuotedToken(s, k0, e.key);
    mem := MemberFromParts(s, p, k0, e.key, k1, e.value, k2, m);
  }

  /** A member read from its parts: a key token, a newline, a value, a newline. */
  lemma MemberFromParts(s: string, p: nat, k0: nat, key: string, k1: nat, node: Node, k2: nat, m: nat)
    returns (mem: Member)
    requires p <= |s| && Skipped(s, p) == k0
    requires TokenAt(s, k0) == Ok(Lexeme(key, k1))
    requires k1 < |s| && Skipped(s, k1) == Skipped(s, k1 + 1)
    requires ValueResult(s, k1 + 1) == Ok(Parsed(node, k2))
    requires k2 < |s| && Skipped(s, k2) == Skipped(s, k2 + 1) && m == k2 + 1
    ensures mem == Member(key, node, Skipped(s, m))
    ensures MemberResult(s, Skipped(s, p)) == Ok(mem)
  {
    ValueAfterNewline(s, k1, Parsed(node, k2));
    MemberAtSteps(s, k0, Lexeme(key, k1), Parsed(node, k2));
    mem := Member(key, node, Skipped(s, m));
  }

  /** The top-level loop goes on past one member that made progress. */
  lemma DocumentStep(s: string, p: nat, root: seq<Entry>, m: Member)
    requires p < |s| && MemberResult(s, p) == Ok(m) && m.end != p
    ensures DocumentFrom(s, p, root) == DocumentFrom(s, m.end, Insert(root, m.key, m.value))
  {
  }

  /**
   * Parsing the text `ToString(0)` writes for a plain Object gives a root
   * holding that Object under the empty key: the rendering starts with `{`, so
   * the top-level loop reads an empty key and then the Object as its value.
   */
  lemma DocumentOfRendering(es: seq<Entry>)
    requires WellFormed(Obj(es)) && PlainTree(Obj(es))
    ensures Document(Render(Obj(es), 0)) ==
            Done(Navigation.Wrap(Some(Obj([Entry("", Obj(es))]))))
  {
    var s := Render(Obj(es), 0);
    var m := RootMember(es);
    assert Insert([], "", Obj(es)) == [Entry("", Obj(es))];
    DocumentStep(s, 0, [], m);
  }

  /** The top-level loop reads a rendered Object as the value of an empty key. */
  lemma RootMember(es: seq<Entry>) returns (m: Member)
    requires WellFormed(Obj(es)) && PlainTree(Obj(es))
    ensures var s := Render(Obj(es), 0);
            0 < |s| && m == Member("", Obj(es), |s|) && Skipped(s, 0) == 0 && MemberResult(s, 0) == Ok(m)
  {
    var s := Render(Obj(es), 0);
    AtSuffix(s, 0);
    assert s[0..] == s;
    RenderShape(Obj(es), 0);
    assert Skipped(s, 0) == 0;
    ValueRendered(s, 0, Obj(es), 0);
    assert ScanFrom(s, 0, false, false) == Scan(0, "", true);
    assert TokenAt(s, 0) == Ok(Lexeme("", 0));
    MemberAtSteps(s, 0, Lexeme("", 0), Parsed(Obj(es), |s|));
    m := Member("", Obj(es), |s|);
  }
}
