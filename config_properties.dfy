/**
  Properties of the configuration container that relate several operations:
  a write followed by a read, writes elsewhere, reloads after a write, and
  where reading a dotted path agrees, or does not, with the merged tree the
  typed value is built from.
 */
module ConfigProperties {
  import opened Json
  import JsonPatch
  import opened DottedPath
  import opened Config

  /** The empty path is one empty key, so writing to it patches the key `""`. */
  lemma EmptyPathPatch(leaf: Value)
    ensures Split("") == [""]
    ensures Nested(Split(""), leaf) == Object(map["" := leaf])
  {
  }

  /**
    A read of the path just written gives back the written tree when it is a
    non-null scalar or array; an object written there reads as that object
    merged onto the overlay's old value; `null` deletes the override, and the
    read falls back to the raw tree.
   */
  lemma {:induction false} SetThenGet(raw: Value, overlay: Value, path: string, leaf: Value)
    ensures leaf != Null && !leaf.Object? ==>
      Select(raw, OverlayAfterSet(overlay, path, leaf), Split(path)) == leaf
    ensures leaf.Object? ==>
      Select(raw, OverlayAfterSet(overlay, path, leaf), Split(path))
        == JsonPatch.Merge(Lookup(overlay, Split(path)), leaf)
    ensures leaf == Null ==>
      Select(raw, OverlayAfterSet(overlay, path, leaf), Split(path)) == Lookup(raw, Split(path))
  {
    var segments := Split(path);
    var patch := Nested(segments, leaf);
    if leaf == Null {
      MergeNestedNull(overlay, segments);
    } else {
      JsonPatch.LookupMerge(overlay, patch, segments);
      JsonPatch.Section2(Lookup(overlay, segments), leaf);
    }
  }

  /** A write leaves the reads of every path that parts from it unchanged. */
  lemma {:induction false} SetRawElsewhere(raw: Value, overlay: Value, path: string, leaf: Value, other: seq<string>)
    requires Diverge(Split(path), other)
    ensures Select(raw, OverlayAfterSet(overlay, path, leaf), other) == Select(raw, overlay, other)
  {
    MergeNestedElsewhere(overlay, Split(path), leaf, other);
  }

  /**
    An override written as a non-null scalar or array stays in the merged tree
    the typed value is built from, whatever raw tree a later reload brings.
   */
  lemma {:induction false} OverrideSurvivesReload(newRaw: Value, overlay: Value, path: string, leaf: Value)
    requires leaf != Null && !leaf.Object?
    ensures Lookup(JsonPatch.Merge(newRaw, OverlayAfterSet(overlay, path, leaf)), Split(path)) == leaf
  {
    var segments := Split(path);
    var updated := OverlayAfterSet(overlay, path, leaf);
    JsonPatch.LookupMerge(overlay, Nested(segments, leaf), segments);
    JsonPatch.Section2(Lookup(overlay, segments), leaf);
    JsonPatch.LookupMerge(newRaw, updated, segments);
  }

  /**
    A read of a path agrees with the merged tree when the overlay holds a
    non-null scalar or array exactly there, or says nothing about the path.
   */
  lemma {:induction false} SelectAgreesWithMerge(raw: Value, overlay: Value, segments: seq<string>)
    requires
      || (Lookup(overlay, segments) != Null && !Lookup(overlay, segments).Object?)
      || JsonPatch.Untouched(overlay, segments)
    ensures Select(raw, overlay, segments) == Lookup(JsonPatch.Merge(raw, overlay), segments)
  {
    if JsonPatch.Untouched(overlay, segments) {
      JsonPatch.LookupMergeUntouched(raw, overlay, segments);
    } else {
      JsonPatch.LookupMerge(raw, overlay, segments);
      JsonPatch.Section2(Lookup(raw, segments), Lookup(overlay, segments));
    }
  }

  /**
    A scalar override at key `k` hides everything below `k` from the merged
    tree, but a read of a deeper path still finds the raw tree's value.
   */
  lemma {:induction false} SelectMissesShallowOverride(raw: Value, overlay: Value, k: string, rest: seq<string>)
    requires overlay.Object? && k in overlay.members
    requires overlay.members[k] != Null && !overlay.members[k].Object?
    requires |rest| >= 1
    ensures Lookup(JsonPatch.Merge(raw, overlay), [k] + rest) == Null
    ensures Select(raw, overlay, [k] + rest) == Lookup(raw, [k] + rest)
  {
    var path := [k] + rest;
    assert path[0] == k && path[1..] == rest;
    JsonPatch.Section2(raw, overlay);
    assert Index(JsonPatch.Merge(raw, overlay), k) == overlay.members[k];
    assert Index(overlay.members[k], rest[0]) == Null;
  }

  /**
    An object override at key `k` is read as it stands, while the merged tree
    merges it with the raw tree's object at `k`: a key `j` of the raw object
    that the override lacks is in the merged tree but not in the read.
   */
  lemma {:induction false} SelectMissesObjectMerge(raw: Value, overlay: Value, k: string, j: string)
    requires overlay.Object? && k in overlay.members && overlay.members[k].Object?
    requires raw.Object? && k in raw.members && raw.members[k].Object?
    requires j in raw.members[k].members && j !in overlay.members[k].members
    ensures Select(raw, overlay, [k]) == overlay.members[k]
    ensures Lookup(JsonPatch.Merge(raw, overlay), [k])
      == JsonPatch.Merge(raw.members[k], overlay.members[k])
    ensures j in Lookup(JsonPatch.Merge(raw, overlay), [k]).members
    ensures Lookup(JsonPatch.Merge(raw, overlay), [k]).members[j] == raw.members[k].members[j]
    ensures Select(raw, overlay, [k]) != Lookup(JsonPatch.Merge(raw, overlay), [k])
  {
    var path := [k];
    assert path[0] == k && path[1..] == [];
    assert Lookup(overlay, path) == overlay.members[k];
    JsonPatch.Section2(raw, overlay);
    assert Index(JsonPatch.Merge(raw, overlay), k) == JsonPatch.Merge(raw.members[k], overlay.members[k]);
    JsonPatch.Section2(raw.members[k], overlay.members[k]);
  }

  /**
    Right after construction, when the overlay is still `{}`, a rebuild
    deserialises the raw tree itself when it is an object, and `{}` otherwise.
   */
  lemma RebuildAfterConstruction<T>(codec: Codec<T>, raw: Value)
    ensures raw.Object? ==> codec.fromValue(JsonPatch.Merge(raw, EmptyObject())) == codec.fromValue(raw)
    ensures !raw.Object? ==> codec.fromValue(JsonPatch.Merge(raw, EmptyObject())) == codec.fromValue(EmptyObject())
  {
    JsonPatch.MergeEmptyPatch(raw);
  }
}

/**
  The write-then-read scenario of the basic tests, carried out on the model:
  over `{"x": {"y": 3}}`, reading `x.y` gives 3, and after writing 2 there it
  gives 2. Only the contracts of the operations are used.
 */
module ConfigScenarios {
  import opened Wrappers
  import opened Json
  import opened DottedPath
  import opened Config
  import ConfigProperties

  method GetSetScenario()
  {
    var tree := Object(map["x" := Object(map["y" := Number(3)])]);
    var made := Config<Value>.NewWith(ValueCodec(), tree);
    var c := made.value;
    var toValue := (v: Value) => Some(v);
    var fromValue := (v: Value) => Some(v);

    SplitJoin(["x", "y"]);
    assert Join(["x", "y"]) == "x.y";
    var segments := Split("x.y");
    assert segments == ["x", "y"];

    var before := c.GetRaw("x.y", fromValue);
    assert Lookup(c.overlay, segments) == Null;
    assert before == Success(Number(3));

    var written := c.SetRaw("x.y", Number(2), toValue);
    assert written == Pass;
    ConfigProperties.SetThenGet(tree, EmptyObject(), "x.y", Number(2));
    var after := c.GetRaw("x.y", fromValue);
    assert after == Success(Number(2));

    var typed := c.Get();
    assert Lookup(typed, segments) == Number(2) by {
      ConfigProperties.OverrideSurvivesReload(tree, EmptyObject(), "x.y", Number(2));
    }
  }
}
