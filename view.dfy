/**
 * `VDFValue`: a navigation handle over a node that never throws. It holds a
 * node pointer; both constructors replace a null pointer by a fresh empty
 * Object, so the pointer a view holds is never null.
 */
module Navigation {
  import opened Results
  import opened Tree

  /** The `VDFNodePtr Node` member; `None` is a null pointer. */
  datatype View = View(ptr: Option<Node>)

  /** `IsNull()`. */
  predicate IsNull(v: View) {
    v.ptr.None?
  }

  /** `VDFValue(VDFNodePtr)`: a null pointer becomes a fresh empty Object. */
  function Wrap(ptr: Option<Node>): (v: View)
    ensures !IsNull(v)
    ensures ptr.Some? ==> v.ptr == ptr
    ensures ptr.None? ==> v.ptr.value == Obj([])
  {
    View(if ptr.Some? then ptr else Some(Obj([])))
  }

  /** `VDFValue()`: a view over a fresh empty Object. */
  function Empty(): (v: View)
    ensures !IsNull(v) && v.ptr.value == Obj([])
  {
    View(Some(Obj([])))
  }

  /** `IsString()`: null-safe. */
  predicate IsString(v: View)
    ensures IsString(v) <==> !IsNull(v) && v.ptr.value.Str?
  {
    v.ptr.Some? && Tree.IsString(v.ptr.value)
  }

  /** `IsObject()`: null-safe. */
  predicate IsObject(v: View)
    ensures IsObject(v) <==> !IsNull(v) && v.ptr.value.Obj?
  {
    v.ptr.Some? && Tree.IsObject(v.ptr.value)
  }

  /** `operator bool()`: a null view is false; otherwise the node's truthiness. */
  predicate Truthy(v: View)
    ensures Truthy(v) <==> v.ptr.Some? && v.ptr.value != Str("") && v.ptr.value != Obj([])
  {
    v.ptr.Some? && Tree.Truthy(v.ptr.value)
  }

  /**
   * `operator[](Key)`: the child under `k` when the view is over an Object that
   * has it, otherwise a view over a fresh empty Object. It never fails and never
   * yields a null view.
   */
  function Index(v: View, k: string): (r: View)
    ensures !IsNull(r)
    ensures IsObject(v) && Lookup(v.ptr.value, k).Some? ==> r.ptr == Lookup(v.ptr.value, k)
    ensures !(IsObject(v) && Lookup(v.ptr.value, k).Some?) ==> r == Empty()
  {
    if v.ptr.None? || !Tree.IsObject(v.ptr.value) then Wrap(None)
    else Wrap(Lookup(v.ptr.value, k))
  }

  /** `operator std::string()`: the text of a String view, and `""` for anything else. */
  function AsText(v: View): (r: string)
    ensures IsString(v) ==> r == v.ptr.value.text
    ensures !IsString(v) ==> r == ""
  {
    if v.ptr.None? || !Tree.IsString(v.ptr.value) then "" else v.ptr.value.text
  }

  /**
   * `VDFValue::ToString()`: `"null"` for a null view; otherwise the node's
   * `ToString()` with one pair of surrounding quotes removed, so a String view
   * gives back exactly its text and an Object view its rendering.
   */
  function ToText(v: View): (r: string)
    ensures IsNull(v) ==> r == "null"
    ensures IsString(v) ==> r == v.ptr.value.text
    ensures IsObject(v) ==> r == Render(v.ptr.value, 0)
  {
    if v.ptr.None? then "null"
    else
      var str := Render(v.ptr.value, 0);
      RenderShape(v.ptr.value, 0);
      if |str| > 0 && str[0] == '"' && str[|str| - 1] == '"' then
        if |str| >= 2 then str[1..|str| - 1] else ""
      else str
  }

  /** A chain of lookups `v[k0][k1]...`. */
  function Path(v: View, keys: seq<string>): View
    decreases |keys|
  {
    if keys == [] then v else Path(Index(v, keys[0]), keys[1..])
  }

  /** A chain of lookups from a non-null view never yields a null view. */
  lemma {:induction false} PathNeverNull(v: View, keys: seq<string>)
    requires !IsNull(v)
    ensures !IsNull(Path(v, keys))
    decreases |keys|
  {
    if keys != [] {
      PathNeverNull(Index(v, keys[0]), keys[1..]);
    }
  }

  /**
   * `IsNull()` is false for every view the class hands out: the two
   * constructors, a lookup, and any chain of lookups from a constructed view.
   */
  lemma NeverNull(ptr: Option<Node>, v: View, k: string, keys: seq<string>)
    ensures !IsNull(Wrap(ptr)) && !IsNull(Empty()) && !IsNull(Index(v, k))
    ensures !IsNull(Path(Wrap(ptr), keys)) && !IsNull(Path(Empty(), keys))
  {
    PathNeverNull(Wrap(ptr), keys);
    PathNeverNull(Empty(), keys);
  }

  /** Every lookup through an empty view stays empty. */
  lemma {:induction false} PathFromEmpty(keys: seq<string>)
    ensures Path(Empty(), keys) == Empty()
    ensures !Truthy(Path(Empty(), keys)) && AsText(Path(Empty(), keys)) == ""
    decreases |keys|
  {
    if keys != [] {
      PathFromEmpty(keys[1..]);
    }
  }

  /** A lookup of a missing key, or any lookup through a String, yields a false, empty Object view. */
  lemma MissingKeyIsEmpty(v: View, k: string)
    requires !(IsObject(v) && Lookup(v.ptr.value, k).Some?)
    ensures Index(v, k) == Empty()
    ensures !Truthy(Index(v, k)) && IsObject(Index(v, k)) && AsText(Index(v, k)) == ""
  {
  }

  /**
   * Once some step of a chain misses, the whole chain converts to `""`: the
   * chain is the empty view from there on.
   */
  lemma {:induction false} PathMissing(v: View, keys: seq<string>, i: nat)
    requires !IsNull(v)
    requires i < |keys|
    requires var w := Path(v, keys[..i]); !(IsObject(w) && Lookup(w.ptr.value, keys[i]).Some?)
    ensures Path(v, keys) == Empty()
    ensures AsText(Path(v, keys)) == "" && !Truthy(Path(v, keys))
    decreases i
  {
    if i == 0 {
      assert keys[..0] == [];
      PathFromEmpty(keys[1..]);
    } else {
      assert keys[1..][..i - 1] == keys[..i][1..];
      PathMissing(Index(v, keys[0]), keys[1..], i - 1);
    }
  }
}
