/**
  The configuration container: the tree loaded from the sources (`raw`), the
  tree of runtime overrides (`overlay`) and the typed value deserialised from
  the merge of the two (`built`), with the operations that read and change
  them. Locking and sharing between handles are not modelled: this is the
  state one handle sees, changed one call at a time.
 */
module Config {
  import opened Wrappers
  import opened Json
  import JsonPatch
  import opened DottedPath

  /** The two ways an operation can fail: serde could not serialise or deserialise. */
  datatype ConfigError = SerializeError | DeserializeError

  /**
    How the typed value converts to and from the JSON tree: serialisation can
    fail, and deserialisation fails when the tree does not fit the type.
   */
  datatype Codec<!T> = Codec(toValue: T -> Option<Value>, fromValue: Value -> Option<T>)

  /** The codec of `Config<Value>`: the tree is its own typed value. */
  function ValueCodec(): (c: Codec<Value>)
    ensures forall v :: c.toValue(v) == Some(v) && c.fromValue(v) == Some(v)
  {
    Codec(v => Some(v), v => Some(v))
  }

  /** Deserialising a tree into a `V`, failing with a deserialisation error. */
  function Decode<V>(fromValue: Value -> Option<V>, v: Value): (r: Result<V, ConfigError>)
    ensures r.Success? <==> fromValue(v).Some?
    ensures r.Success? ==> fromValue(v) == Some(r.value)
    ensures r.Failure? ==> r.error == DeserializeError
  {
    match fromValue(v)
    case Some(x) => Success(x)
    case None => Failure(DeserializeError)
  }

  /**
    The tree a read of a dotted path picks: the overlay's value at exactly
    that path when it is not `null`, and otherwise the raw tree's value
    there. Missing keys and non-object nodes on the way read as `null`.
   */
  function Select(raw: Value, overlay: Value, segments: seq<string>): (r: Value)
    ensures Lookup(overlay, segments) != Null ==> r == Lookup(overlay, segments)
    ensures r == Null <==> Lookup(overlay, segments) == Null && Lookup(raw, segments) == Null
    ensures r == Lookup(overlay, segments) || r == Lookup(raw, segments)
  {
    var fromOverlay := Lookup(overlay, segments);
    if fromOverlay == Null then Lookup(raw, segments) else fromOverlay
  }

  /**
    The patch a write to `path` merges into the overlay, built the way the
    source builds it: innermost key first, then wrapping it in one
    single-key object per remaining segment, from the last to the first.
   */
  method BuildPatch(path: string, leaf: Value) returns (patch: Value)
    ensures patch == Nested(Split(path), leaf)
    ensures patch.Object?
  {
    var segments := Split(path);
    var i := |segments| - 1;
    patch := Object(map[segments[i] := leaf]);
    while i > 0
      invariant 0 <= i < |segments|
      invariant patch == Nested(segments[i..], leaf)
    {
      i := i - 1;
      patch := Object(map[segments[i] := patch]);
    }
  }

  /** The overlay after a write of the tree `leaf` at the dotted `path`. */
  function OverlayAfterSet(overlay: Value, path: string, leaf: Value): Value
  {
    JsonPatch.Merge(overlay, Nested(Split(path), leaf))
  }

  class Config<T> {
    /** serde's conversions for the typed value. */
    const codec: Codec<T>
    /** The tree loaded from the sources. */
    var raw: Value
    /** The runtime overrides written through dotted paths. */
    var overlay: Value
    /** The typed value, as of the last successful rebuild or construction. */
    var built: T

    /** The overlay is always a JSON object. */
    ghost predicate Valid()
      reads this
    {
      overlay.Object?
    }

    /**
      What a rebuild leaves behind: when the merge of raw and overlay
      deserialises, it succeeded and `built` is the result; otherwise it
      failed and `built` is still `previous`.
     */
    ghost predicate Rebuilt(previous: T, r: Outcome<ConfigError>)
      reads this
    {
      match codec.fromValue(JsonPatch.Merge(raw, overlay))
      case Some(t) => r == Pass && built == t
      case None => r == Fail(DeserializeError) && built == previous
    }

    /** A container over a tree and a typed value, with an empty overlay. */
    constructor WithRawAndBuilt(codec: Codec<T>, raw: Value, built: T)
      ensures this.codec == codec && this.raw == raw && this.built == built
      ensures overlay == EmptyObject()
      ensures Valid()
    {
      this.codec := codec;
      this.raw := raw;
      this.built := built;
      this.overlay := EmptyObject();
    }

    /**
      A container over a typed value, whose raw tree is its serialisation;
      fails when the value does not serialise.
     */
    static method NewWith(codec: Codec<T>, built: T) returns (r: Result<Config<T>, ConfigError>)
      ensures r.Success? <==> codec.toValue(built).Some?
      ensures r.Failure? ==> r.error == SerializeError
      ensures r.Success? ==>
        && fresh(r.value) && r.value.Valid() && r.value.codec == codec
        && r.value.raw == codec.toValue(built).value
        && r.value.built == built
        && r.value.overlay == EmptyObject()
    {
      var tree := codec.toValue(built);
      if tree.None? {
        return Failure(SerializeError);
      }
      var c := new Config<T>.WithRawAndBuilt(codec, tree.value, built);
      return Success(c);
    }

    /**
      A container over a raw tree, whose typed value is the tree
      deserialised; fails when the tree does not deserialise.
     */
    static method NewWithRaw(codec: Codec<T>, raw: Value) returns (r: Result<Config<T>, ConfigError>)
      ensures r.Success? <==> codec.fromValue(raw).Some?
      ensures r.Failure? ==> r.error == DeserializeError
      ensures r.Success? ==>
        && fresh(r.value) && r.value.Valid() && r.value.codec == codec
        && r.value.raw == raw
        && r.value.built == codec.fromValue(raw).value
        && r.value.overlay == EmptyObject()
    {
      var typed := codec.fromValue(raw);
      if typed.None? {
        return Failure(DeserializeError);
      }
      var c := new Config<T>.WithRawAndBuilt(codec, raw, typed.value);
      return Success(c);
    }

    /**
      Recomputes the typed value from the overlay merged onto the raw tree.
      A tree that does not deserialise leaves the typed value as it was.
     */
    method Rebuild() returns (r: Outcome<ConfigError>)
      modifies this`built
      ensures Rebuilt(old(built), r)
    {
      var typed := codec.fromValue(JsonPatch.Merge(raw, overlay));
      if typed.None? {
        return Fail(DeserializeError);
      }
      built := typed.value;
      return Pass;
    }

    /** The typed value. */
    method Get() returns (t: T)
      ensures t == built
    {
      t := built;
    }

    /**
      Merges a patch into the overlay and rebuilds. The new overlay stays
      even when the rebuild fails: nothing is rolled back.
     */
    method MergeOverlay(patch: Value) returns (r: Outcome<ConfigError>)
      modifies this`overlay, this`built
      ensures overlay == JsonPatch.Merge(old(overlay), patch)
      ensures Valid() <==> patch.Object?
      ensures raw == old(raw)
      ensures Rebuilt(old(built), r)
    {
      overlay := JsonPatch.Merge(overlay, patch);
      r := Rebuild();
    }

    /**
      Reads the value at a dotted path, deserialised into a `V`: walks both
      trees one segment at a time and prefers the overlay's value when it is
      not `null`. A missing path reads as `null` rather than failing.
     */
    method GetRaw<V>(path: string, fromValue: Value -> Option<V>) returns (r: Result<V, ConfigError>)
      ensures r == Decode(fromValue, Select(raw, overlay, Split(path)))
    {
      var segments := Split(path);
      var atRaw, atOverlay := raw, overlay;
      var i := 0;
      while i < |segments|
        invariant 0 <= i <= |segments|
        invariant Lookup(atRaw, segments[i..]) == Lookup(raw, segments)
        invariant Lookup(atOverlay, segments[i..]) == Lookup(overlay, segments)
      {
        atRaw := Index(atRaw, segments[i]);
        atOverlay := Index(atOverlay, segments[i]);
        i := i + 1;
      }
      var picked := if atOverlay == Null then atRaw else atOverlay;
      r := Decode(fromValue, picked);
    }

    /**
      Writes a value at a dotted path: serialises it, merges the nested
      single-key patch for the path into the overlay and rebuilds. A value
      that does not serialise changes nothing.
     */
    method SetRaw<V>(path: string, value: V, toValue: V -> Option<Value>) returns (r: Outcome<ConfigError>)
      modifies this`overlay, this`built
      ensures raw == old(raw)
      ensures toValue(value).None? ==>
        r == Fail(SerializeError) && overlay == old(overlay) && built == old(built)
      ensures toValue(value).Some? ==>
        && overlay == OverlayAfterSet(old(overlay), path, toValue(value).value)
        && Valid()
        && Rebuilt(old(built), r)
      ensures old(Valid()) ==> Valid()
    {
      var leaf := toValue(value);
      if leaf.None? {
        return Fail(SerializeError);
      }
      var patch := BuildPatch(path, leaf.value);
      r := MergeOverlay(patch);
    }

    /**
      Replaces the raw tree and rebuilds. The new tree is kept even when the
      rebuild fails; the typed value then stays as it was.
     */
    method ReplaceRaw(value: Value) returns (r: Outcome<ConfigError>)
      modifies this`raw, this`built
      ensures raw == value
      ensures overlay == old(overlay)
      ensures Valid() <==> old(Valid())
      ensures Rebuilt(old(built), r)
    {
      raw := value;
      r := Rebuild();
    }
  }

  /** `Config<Value>` over the empty object. */
  method Empty() returns (c: Config<Value>)
    ensures fresh(c) && c.Valid()
    ensures c.codec == ValueCodec()
    ensures c.built == EmptyObject() && c.raw == EmptyObject() && c.overlay == EmptyObject()
  {
    var r := Config<Value>.NewWith(ValueCodec(), EmptyObject());
    c := r.value;
  }
}
