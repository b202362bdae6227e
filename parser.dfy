/**
 * `VDFParser`: the recursive-descent parser (`ParseValue`, `ParseObject`) and
 * the public `ParseString(Content)` loop that fills an implicit root Object.
 *
 * The specification functions `ValueAt`, `ObjectAt`, `MembersFrom` and
 * `MemberAt` say what parsing from a position yields; the methods of the same
 * names as the C++ functions run the source's loops and are proved equal to
 * them. `Pos` is a parameter and a returned end position.
 */
module Parser {
  import opened Results
  import opened Lexer
  import opened Tree
  import Navigation

  /** A parsed value and the cursor after it. */
  datatype Parsed = Parsed(node: Node, end: nat)

  /** One key/value pair of an object body, and the cursor after its trailing whitespace. */
  datatype Member = Member(key: string, value: Node, end: nat)

  /**
   * How `ParseString(Content)` ends: it returns the root view, it throws, or it
   * never returns because an iteration of its loop left the cursor where it was.
   */
  datatype Outcome = Done(root: Navigation.View) | Failed(error: ParseError) | Diverges(pos: nat)

  /**
   * The body of the loop in `ParseObject` and in `ParseString(Content)`: read a
   * key, skip, read a value, skip. Without progress the cursor sits on a `}`.
   */
  function MemberAt(s: string, p: nat): (r: Result<Member, ParseError>)
    requires p <= |s|
    ensures r.Ok? ==> p <= r.value.end <= |s|
    ensures r.Ok? && r.value.end == p ==> p < |s| && s[p] == '}'
    ensures r.Ok? ==> WellFormed(r.value.value)
    ensures r.Err? ==> r.error.pos == |s| && r.error.kind != ExpectedOpenBrace
    decreases |s| - p, 2
  {
    match TokenAt(s, p)
    case Err(e) => Err(e)
    case Ok(key) =>
      match ValueAt(s, WhitespaceEnd(s, key.end))
      case Err(e) => Err(e)
      case Ok(v) => Ok(Member(key.text, v.node, WhitespaceEnd(s, v.end)))
  }

  /** `ParseValue`: an object when the next byte is `{`, otherwise a String token. */
  function ValueAt(s: string, p: nat): (r: Result<Parsed, ParseError>)
    requires p <= |s|
    ensures r.Ok? ==> p <= r.value.end <= |s|
    ensures r.Ok? && r.value.end == p ==> p < |s| && s[p] == '}'
    ensures r.Ok? ==> WellFormed(r.value.node)
    ensures r.Err? ==> r.error.pos == |s| && r.error.kind != ExpectedOpenBrace
    ensures WhitespaceEnd(s, p) == |s| ==> r == Err(ParseError(UnexpectedEndOfInput, |s|))
    decreases |s| - p, 1
  {
    var q := WhitespaceEnd(s, p);
    if q == |s| then Err(ParseError(UnexpectedEndOfInput, q))
    else if s[q] == '{' then ObjectAt(s, q)
    else
      match TokenAt(s, q)
      case Err(e) => Err(e)
      case Ok(t) => Ok(Parsed(Str(t.text), t.end))
  }

  /** `ParseObject`: `{`, then members up to the matching `}`. */
  function ObjectAt(s: string, p: nat): (r: Result<Parsed, ParseError>)
    requires p <= |s|
    ensures r.Ok? ==> p < r.value.end <= |s| && r.value.node.Obj?
    ensures r.Ok? ==> s[r.value.end - 1] == '}'
    ensures r.Ok? ==> WellFormed(r.value.node)
    ensures !(p < |s| && s[p] == '{') ==> r == Err(ParseError(ExpectedOpenBrace, p))
    ensures p < |s| && s[p] == '{' && r.Err? ==> r.error.pos == |s| && r.error.kind != ExpectedOpenBrace
    decreases |s| - p, 0
  {
    if p >= |s| || s[p] != '{' then Err(ParseError(ExpectedOpenBrace, p))
    else MembersFrom(s, WhitespaceEnd(s, p + 1), [])
  }

  /**
   * The loop of `ParseObject` from cursor `p` with the entries `acc` read so
   * far: members until a `}`, which is consumed; end of input first is an error.
   */
  function MembersFrom(s: string, p: nat, acc: seq<Entry>): (r: Result<Parsed, ParseError>)
    requires p <= |s|
    ensures r.Ok? ==> p < r.value.end <= |s| && r.value.node.Obj?
    ensures r.Ok? ==> s[r.value.end - 1] == '}'
    ensures r.Ok? && WellFormed(Obj(acc)) ==> WellFormed(r.value.node)
    ensures r.Err? ==> r.error.pos == |s| && r.error.kind != ExpectedOpenBrace
    decreases |s| - p, 3
  {
    if p == |s| then Err(ParseError(ExpectedCloseBrace, p))
    else if s[p] == '}' then Ok(Parsed(Obj(acc), p + 1))
    else
      match MemberAt(s, p)
      case Err(e) => Err(e)
      case Ok(m) =>
        InsertWellFormed(acc, m.key, m.value);
        MembersFrom(s, m.end, Insert(acc, m.key, m.value))
  }

  /** Inserting a well-formed value into well-formed entries keeps them well formed. */
  lemma InsertWellFormed(es: seq<Entry>, k: string, v: Node)
    ensures WellFormed(Obj(es)) && WellFormed(v) ==> WellFormed(Obj(Insert(es, k, v)))
  {
    if WellFormed(Obj(es)) && WellFormed(v) {
      var r := Insert(es, k, v);
      forall i | 0 <= i < |r|
        ensures WellFormed(r[i].value)
      {
        if r[i] != Entry(k, v) {
          var j :| 0 <= j < |es| && es[j] == r[i];
        }
      }
    }
  }

  /**
   * The loop of `ParseString(Content)` from cursor `p` with the root entries
   * `root`: it stops at the end of input; an iteration that leaves the cursor in
   * place would repeat for ever.
   */
  function DocumentFrom(s: string, p: nat, root: seq<Entry>): (o: Outcome)
    requires p <= |s|
    ensures o.Done? ==> !Navigation.IsNull(o.root) && o.root.ptr.value.Obj?
    ensures o.Done? && WellFormed(Obj(root)) ==> WellFormed(o.root.ptr.value)
    ensures o.Done? && (root != [] || p < |s|) ==> o.root.ptr.value.entries != []
    ensures o.Failed? ==> o.error.pos == |s| && o.error.kind != ExpectedOpenBrace
    ensures o.Diverges? ==> p <= o.pos < |s| && s[o.pos] == '}'
    ensures p < |s| && s[p] == '}' ==> o == Diverges(p)
    decreases |s| - p
  {
    if p == |s| then Done(Navigation.Wrap(Some(Obj(root))))
    else
      assert s[p] == '}' ==> MemberAt(s, p) == Ok(Member("", Str(""), p)) by {
        if s[p] == '}' { MemberAtCloseBrace(s, p); }
      }
      match MemberAt(s, p)
      case Err(e) => Failed(e)
      case Ok(m) =>
        if m.end == p then Diverges(p)
        else
          InsertWellFormed(root, m.key, m.value);
          DocumentFrom(s, m.end, Insert(root, m.key, m.value))
  }

  /**
   * A `}` where a key is expected is read as the empty key with an empty String
   * value, and the cursor stays on the `}`.
   */
  lemma MemberAtCloseBrace(s: string, p: nat)
    requires p < |s| && s[p] == '}'
    ensures MemberAt(s, p) == Ok(Member("", Str(""), p))
  {
    TokenAtBrace(s, p);
    assert ValueAt(s, p) == Ok(Parsed(Str(""), p));
  }

  /** What the public `ParseString(Content)` does with a whole text. */
  function Document(s: string): (o: Outcome)
    ensures o.Done? ==> Navigation.IsObject(o.root) && WellFormed(o.root.ptr.value)
    ensures o.Failed? ==> o.error.pos == |s| && o.error.kind != ExpectedOpenBrace
    ensures o.Diverges? ==> o.pos < |s| && s[o.pos] == '}'
    ensures o == Done(Navigation.Empty()) <==> WhitespaceEnd(s, 0) == |s|
  {
    DocumentFrom(s, WhitespaceEnd(s, 0), [])
  }

  /** `ParseValue(Content, Pos)`. */
  method ParseValue(s: string, p: nat) returns (r: Result<Parsed, ParseError>)
    requires p <= |s|
    ensures r == ValueAt(s, p)
    decreases |s| - p, 1
  {
    var pos := SkipWhitespace(s, p);
    if pos >= |s| {
      return Err(ParseError(UnexpectedEndOfInput, pos));
    }
    if s[pos] == '{' {
      r := ParseObject(s, pos);
      return;
    }
    var token := Lexer.ParseString(s, pos);
    match token
    case Err(e) => r := Err(e);
    case Ok(t) => r := Ok(Parsed(Str(t.text), t.end));
  }

  /** `ParseObject(Content, Pos)`. */
  method ParseObject(s: string, p: nat) returns (r: Result<Parsed, ParseError>)
    requires p <= |s|
    ensures r == ObjectAt(s, p)
    decreases |s| - p, 0
  {
    if p >= |s| || s[p] != '{' {
      return Err(ParseError(ExpectedOpenBrace, p));
    }
    var pos := SkipWhitespace(s, p + 1);
    var obj: seq<Entry> := [];
    while pos < |s| && s[pos] != '}'
      invariant p < pos <= |s|
      invariant MembersFrom(s, pos, obj) == ObjectAt(s, p)
      decreases |s| - pos
    {
      var key := Lexer.ParseString(s, pos);
      if key.Err? {
        return Err(key.error);
      }
      var valuePos := SkipWhitespace(s, key.value.end);
      var value := ParseValue(s, valuePos);
      if value.Err? {
        return Err(value.error);
      }
      obj := Insert(obj, key.value.text, value.value.node);
      pos := SkipWhitespace(s, value.value.end);
    }
    if pos >= |s| || s[pos] != '}' {
      return Err(ParseError(ExpectedCloseBrace, pos));
    }
    r := Ok(Parsed(Obj(obj), pos + 1));
  }

  /**
   * The public `ParseString(Content)`. Where the C++ loop would run for ever,
   * this returns `Diverges` with the cursor it is stuck at.
   */
  method ParseString(s: string) returns (o: Outcome)
    ensures o == Document(s)
  {
    var pos := SkipWhitespace(s, 0);
    var root: seq<Entry> := [];
    while pos < |s|
      invariant pos <= |s|
      invariant DocumentFrom(s, pos, root) == Document(s)
      decreases |s| - pos
    {
      var key := Lexer.ParseString(s, pos);
      if key.Err? {
        return Failed(key.error);
      }
      var valuePos := SkipWhitespace(s, key.value.end);
      var value := ParseValue(s, valuePos);
      if value.Err? {
        return Failed(value.error);
      }
      var next := SkipWhitespace(s, value.value.end);
      if next == pos {
        return Diverges(pos);
      }
      var updated := SetValue(Obj(root), key.value.text, value.value.node);
      root := updated.value.entries;
      pos := next;
    }
    o := Done(Navigation.Wrap(Some(Obj(root))));
  }
}
