/**
 * The JSON-like documents the configuration resolver reads and writes, as a
 * closed tagged union, and the recursive deep merge that layers them
 * (`merge_values`, opencode_config.rs).
 */
module Json {
  import opened Wrappers

  /** A JSON value. Numbers are integers: no document field the core touches is fractional. */
  datatype Value =
    | Null
    | Bool(b: bool)
    | Number(n: int)
    | Str(s: string)
    | Array(items: seq<Value>)
    | Object(fields: map<string, Value>)

  const EmptyObject: Value := Object(map[])

  /** `Value::get(key)`: a member of an object; nothing for any other value. */
  function Get(v: Value, key: string): (r: Option<Value>)
    ensures r.Some? <==> v.Object? && key in v.fields
  {
    if v.Object? && key in v.fields then Some(v.fields[key]) else None
  }

  /** `get(key).and_then(as_str)`. */
  function GetStr(v: Value, key: string): (r: Option<string>)
    ensures r.Some? <==> v.Object? && key in v.fields && v.fields[key].Str?
  {
    if v.Object? && key in v.fields && v.fields[key].Str? then Some(v.fields[key].s) else None
  }

  /** `as_str().unwrap_or("")`: the text of a string, the empty string for anything else. */
  function StrOrEmpty(v: Value): string {
    if v.Str? then v.s else ""
  }

  /** The fields of an object, or the empty map for any other value (`as_object().cloned().unwrap_or_default()`). */
  function FieldsOrEmpty(v: Value): map<string, Value> {
    if v.Object? then v.fields else map[]
  }

  /**
   * Deep merge: two objects merge key by key, recursing where the overlay has
   * a key (against the base's value there, or null); in every other pairing the
   * overlay replaces the base wholesale, so arrays are never concatenated.
   */
  function Merge(base: Value, overlay: Value): (r: Value)
    decreases overlay
    ensures r.Object? <==> overlay.Object?
    ensures !base.Object? || !overlay.Object? ==> r == overlay
    ensures base.Object? && overlay.Object? ==>
      && r.fields.Keys == base.fields.Keys + overlay.fields.Keys
      && (forall k :: k in base.fields && k !in overlay.fields ==> r.fields[k] == base.fields[k])
  {
    match (base, overlay)
    case (Object(b), Object(o)) =>
      Object(map k | k in b.Keys + o.Keys ::
        if k in o then Merge(if k in b then b[k] else Null, o[k]) else b[k])
    case _ => overlay
  }

  /** The value found by following a path of object keys from the root. */
  function At(v: Value, path: seq<string>): Option<Value>
    decreases |path|
  {
    if path == [] then Some(v)
    else if v.Object? && path[0] in v.fields then At(v.fields[path[0]], path[1..])
    else None
  }

  function AtOrNull(v: Value, path: seq<string>): Value {
    match At(v, path)
    case Some(x) => x
    case None => Null
  }

  /**
   * Wherever the overlay has a value, the merge holds the merge of the base's
   * value at that path (null when absent) with the overlay's.
   */
  lemma {:induction false} MergeAt(base: Value, overlay: Value, path: seq<string>, x: Value)
    requires At(overlay, path) == Some(x)
    ensures At(Merge(base, overlay), path) == Some(Merge(AtOrNull(base, path), x))
    decreases |path|
  {
    if path == [] {
    } else if base.Object? {
      var k := path[0];
      var bk := if k in base.fields then base.fields[k] else Null;
      MergeAt(bk, overlay.fields[k], path[1..], x);
      assert Merge(base, overlay).fields[k] == Merge(bk, overlay.fields[k]);
      assert AtOrNull(base, path) == AtOrNull(bk, path[1..]);
    } else {
      assert Merge(base, overlay) == overlay;
      NullBaseAt(base, path);
    }
  }

  /** A path below a non-object has no value. */
  lemma {:induction false} NullBaseAt(base: Value, path: seq<string>)
    requires !base.Object? && path != []
    ensures AtOrNull(base, path) == Null
  {
  }

  /** A non-object value of the overlay always wins, at any depth. */
  lemma OverlayLeafWins(base: Value, overlay: Value, path: seq<string>, x: Value)
    requires At(overlay, path) == Some(x) && !x.Object?
    ensures At(Merge(base, overlay), path) == Some(x)
  {
    MergeAt(base, overlay, path, x);
  }

  /** The overlay is an object along `path` and leaves the path's last key to the base. */
  predicate LeavesToBase(overlay: Value, path: seq<string>)
    decreases |path|
  {
    overlay.Object? && path != [] &&
    (path[0] !in overlay.fields || LeavesToBase(overlay.fields[path[0]], path[1..]))
  }

  /** Every base value the overlay does not reach survives the merge unchanged. */
  lemma {:induction false} BaseKeptWhereOverlayAbsent(base: Value, overlay: Value, path: seq<string>, y: Value)
    requires At(base, path) == Some(y)
    requires LeavesToBase(overlay, path)
    ensures At(Merge(base, overlay), path) == Some(y)
    decreases |path|
  {
    var k := path[0];
    var m := Merge(base, overlay);
    if k in overlay.fields {
      BaseKeptWhereOverlayAbsent(base.fields[k], overlay.fields[k], path[1..], y);
      assert m.fields[k] == Merge(base.fields[k], overlay.fields[k]);
    } else {
      assert m.fields[k] == base.fields[k];
    }
  }

  /** Merging a document with itself gives the document back. */
  lemma {:induction false} MergeIdempotent(v: Value)
    ensures Merge(v, v) == v
    decreases v
  {
    if v.Object? {
      var m := Merge(v, v);
      forall k | k in v.fields ensures m.fields[k] == v.fields[k] {
        MergeIdempotent(v.fields[k]);
      }
      assert m.fields == v.fields;
    }
  }

  /** Merging an empty object over an object changes nothing. */
  lemma MergeEmptyOverlay(base: Value)
    requires base.Object?
    ensures Merge(base, EmptyObject) == base
  {
    assert Merge(base, EmptyObject).fields == base.fields;
  }
}
