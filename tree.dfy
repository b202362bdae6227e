/**
 * `VDFNode`: a node is either a String holding text or an Object holding a
 * `std::map` from keys to child nodes.
 *
 * The tree is modelled as a value. A `std::map` iterates in ascending key order
 * and holds each key once, so an Object's entries are a sequence whose keys are
 * strictly increasing under `std::string`'s byte-wise lexicographic order.
 */
module Tree {
  import opened Results

  datatype Node = Str(text: string) | Obj(entries: seq<Entry>)

  /** One `std::pair<const std::string, VDFNodePtr>` of an Object's map. */
  datatype Entry = Entry(key: string, value: Node)

  /** The three `std::runtime_error`s the node accessors throw. */
  datatype NodeError =
    | NotAString        // "VDF value is not a string"
    | NotAnObject       // "VDF value is not an object"
    | KeyOnString       // "Cannot set key on a string value"

  /** `std::string`'s `operator<`: byte-wise lexicographic, a proper prefix first. */
  predicate KeyLess(a: string, b: string)
    decreases |a|
  {
    if a == [] then b != []
    else if b == [] then false
    else if a[0] != b[0] then a[0] < b[0]
    else KeyLess(a[1..], b[1..])
  }

  lemma {:induction false} KeyLessIrreflexive(a: string)
    ensures !KeyLess(a, a)
    decreases |a|
  {
    if a != [] {
      KeyLessIrreflexive(a[1..]);
    }
  }

  lemma {:induction false} KeyLessTransitive(a: string, b: string, c: string)
    requires KeyLess(a, b) && KeyLess(b, c)
    ensures KeyLess(a, c)
    decreases |a|
  {
    if a != [] && b != [] && c != [] && a[0] == b[0] && b[0] == c[0] {
      KeyLessTransitive(a[1..], b[1..], c[1..]);
    }
  }

  /** Two different keys are ordered one way or the other. */
  lemma {:induction false} KeyLessTotal(a: string, b: string)
    requires a != b
    ensures KeyLess(a, b) || KeyLess(b, a)
    decreases |a|
  {
    if a != [] && b != [] && a[0] == b[0] {
      assert a == [a[0]] + a[1..] && b == [b[0]] + b[1..];
      KeyLessTotal(a[1..], b[1..]);
    }
  }

  /** The entries are in `std::map` order, each key once. */
  predicate Sorted(es: seq<Entry>) {
    forall i :: 0 < i < |es| ==> KeyLess(es[i - 1].key, es[i].key)
  }

  /** A node that a `std::map`-based tree can represent: every Object sorted. */
  predicate WellFormed(n: Node) {
    match n
    case Str(_) => true
    case Obj(es) => Sorted(es) && forall i :: 0 <= i < |es| ==> WellFormed(es[i].value)
  }

  /** In sorted entries every key comes before all keys after it, so no key repeats. */
  lemma {:induction false} SortedKeysDistinct(es: seq<Entry>, i: nat, j: nat)
    requires Sorted(es)
    requires i < j < |es|
    ensures KeyLess(es[i].key, es[j].key)
    ensures es[i].key != es[j].key
    decreases j - i
  {
    if i + 1 < j {
      SortedKeysDistinct(es, i, j - 1);
      KeyLessTransitive(es[i].key, es[j - 1].key, es[j].key);
    }
    KeyLessIrreflexive(es[i].key);
  }

  /** `ObjectValue.find(Key)`: the value stored under `k`, if any. */
  function Find(es: seq<Entry>, k: string): (r: Option<Node>)
    ensures r.Some? <==> exists i :: 0 <= i < |es| && es[i].key == k
    ensures r.Some? ==> exists i :: 0 <= i < |es| && es[i] == Entry(k, r.value)
  {
    if es == [] then None
    else if es[0].key == k then Some(es[0].value)
    else
      var r := Find(es[1..], k);
      assert forall i :: 0 < i < |es| ==> es[i] == es[1..][i - 1];
      r
  }

  /**
   * `ObjectValue[Key] = Value`: stores `v` under `k`, replacing an earlier value
   * of `k` and keeping the entries in key order.
   */
  function Insert(es: seq<Entry>, k: string, v: Node): (r: seq<Entry>)
    ensures forall k' :: Find(r, k') == if k' == k then Some(v) else Find(es, k')
    ensures Sorted(es) ==> Sorted(r)
    ensures |r| > 0 && (r[0].key == k || (es != [] && r[0] == es[0]))
    ensures forall i :: 0 <= i < |r| ==> r[i] == Entry(k, v) || r[i] in es
  {
    if es == [] then [Entry(k, v)]
    else if es[0].key == k then [Entry(k, v)] + es[1..]
    else if KeyLess(k, es[0].key) then [Entry(k, v)] + es
    else
      var rest := Insert(es[1..], k, v);
      KeyLessTotal(k, es[0].key);
      [es[0]] + rest
  }

  /** `IsString()`. A node has exactly one of the two kinds. */
  predicate IsString(n: Node)
    ensures IsString(n) <==> !n.Obj?
  {
    n.Str?
  }

  /** `IsObject()`. */
  predicate IsObject(n: Node)
    ensures IsObject(n) <==> !IsString(n)
  {
    n.Obj?
  }

  /** `AsString()`: the text of a String node; throws on an Object. */
  function AsString(n: Node): (r: Result<string, NodeError>)
    ensures r.Ok? <==> IsString(n)
    ensures r.Ok? ==> n == Str(r.value)
    ensures r.Err? ==> r.error == NotAString
  {
    match n
    case Str(t) => Ok(t)
    case Obj(_) => Err(NotAString)
  }

  /** `GetObject()`: the map of an Object node; throws on a String. */
  function GetObject(n: Node): (r: Result<seq<Entry>, NodeError>)
    ensures r.Ok? <==> IsObject(n)
    ensures r.Ok? ==> n == Obj(r.value)
    ensures r.Err? ==> r.error == NotAnObject
  {
    match n
    case Obj(es) => Ok(es)
    case Str(_) => Err(NotAnObject)
  }

  /** `operator[](Key)`: the child under `k`, or null for a String or a missing key. */
  function Lookup(n: Node, k: string): (r: Option<Node>)
    ensures r.Some? <==> n.Obj? && exists i :: 0 <= i < |n.entries| && n.entries[i].key == k
    ensures r.Some? ==> exists i :: 0 <= i < |n.entries| && n.entries[i] == Entry(k, r.value)
  {
    match n
    case Str(_) => None
    case Obj(es) => Find(es, k)
  }

  /**
   * `SetValue(Key, Value)`: on an Object, stores `v` under `k` (the last write
   * wins); on a String, throws.
   */
  function SetValue(n: Node, k: string, v: Node): (r: Result<Node, NodeError>)
    ensures r.Ok? <==> IsObject(n)
    ensures r.Err? ==> r.error == KeyOnString
    ensures r.Ok? ==> r.value.Obj? &&
                      forall k' :: Lookup(r.value, k') == if k' == k then Some(v) else Lookup(n, k')
    ensures r.Ok? && WellFormed(n) && WellFormed(v) ==> WellFormed(r.value)
  {
    match n
    case Str(_) => Err(KeyOnString)
    case Obj(es) => Ok(Obj(Insert(es, k, v)))
  }

  /** `operator bool()`: a node is false exactly when it is an empty String or an empty Object. */
  predicate Truthy(n: Node)
    ensures !Truthy(n) <==> n == Str("") || n == Obj([])
  {
    !((n.Str? && |n.text| == 0) || (n.Obj? && |n.entries| == 0))
  }

  /** An Object is true exactly when some key can be looked up in it. */
  lemma ObjectTruthyIffKey(n: Node)
    requires IsObject(n)
    ensures Truthy(n) <==> exists k :: Lookup(n, k).Some?
  {
    if Truthy(n) {
      assert Lookup(n, n.entries[0].key).Some?;
    }
  }

  /** Storing two values under one key keeps only the second. */
  lemma LastWriteWins(n: Node, k: string, v1: Node, v2: Node)
    requires IsObject(n)
    ensures SetValue(n, k, v1).Ok?
    ensures SetValue(SetValue(n, k, v1).value, k, v2).Ok?
    ensures Lookup(SetValue(SetValue(n, k, v1).value, k, v2).value, k) == Some(v2)
  {
  }

  /** `std::string(Indent, ' ')`. */
  function Spaces(k: nat): (r: string)
    ensures |r| == k && forall i :: 0 <= i < k ==> r[i] == ' '
  {
    if k == 0 then "" else Spaces(k - 1) + " "
  }

  /**
   * `ToString(Indent)`: a String as its text in quotes; an Object as `{`, then
   * for each entry in key order its quoted key and its value indented two more,
   * each on its own line, then `}`. Nothing is escaped.
   */
  function Render(n: Node, indent: nat): string
    decreases n, 1
  {
    match n
    case Str(t) => Spaces(indent) + "\"" + t + "\""
    case Obj(es) => Spaces(indent) + "{\n" + RenderEntries(es, indent) + Spaces(indent) + "}"
  }

  /** The lines the loop over an Object's map writes for the entries `es`. */
  function RenderEntries(es: seq<Entry>, indent: nat): string
    decreases es, 0
  {
    if es == [] then ""
    else RenderEntries(es[..|es| - 1], indent) + RenderEntry(es[|es| - 1], indent)
  }

  /** The two lines written for one entry: its quoted key, then its value. */
  function RenderEntry(e: Entry, indent: nat): string
    decreases e, 0
  {
    Spaces(indent) + "  \"" + e.key + "\"\n" + Render(e.value, indent + 2) + "\n"
  }

  /** `ToString(Indent)`, with the loop over the map writing into a buffer. */
  method ToString(n: Node, indent: nat) returns (r: string)
    ensures r == Render(n, indent)
    decreases n
  {
    var pad := Spaces(indent);
    match n
    case Str(t) =>
      r := pad + "\"" + t + "\"";
    case Obj(es) =>
      var oss := pad + "{\n";
      for i := 0 to |es|
        invariant oss == pad + "{\n" + RenderEntries(es[..i], indent)
      {
        var child := ToString(es[i].value, indent + 2);
        oss := oss + pad + "  \"" + es[i].key + "\"\n" + child + "\n";
        assert es[..i + 1][..i] == es[..i];
      }
      assert es[..|es|] == es;
      r := oss + pad + "}";
  }

  /** A rendered node starts with its indentation and ends with a quote or a closing brace. */
  lemma RenderShape(n: Node, indent: nat)
    ensures var r := Render(n, indent);
            |r| >= indent + 2 && r[..indent] == Spaces(indent) &&
            (n.Str? ==> r[indent] == '"' && r[|r| - 1] == '"') &&
            (n.Obj? ==> r[indent] == '{' && r[indent + 1] == '\n' && r[|r| - 1] == '}')
  {
  }
}
