/**
  JSON Merge Patch, section 2 of RFC 7396, as the `json_patch::merge`
  function applies it: the configuration merges the runtime overlay onto the
  loaded tree with it, and every dotted-path patch onto the overlay.
 */
module JsonPatch {
  import opened Json

  /**
    The result of applying `patch` to `target`. A non-object patch replaces
    the target wholesale. An object patch turns a non-object target into `{}`
    first; a `null` member deletes its key, every other member is merged
    recursively into the target's value at that key (`null` when the key is
    missing), and target keys the patch does not mention are kept.
   */
  function Merge(target: Value, patch: Value): (r: Value)
    ensures r.Object? <==> patch.Object?
    ensures patch.Object? ==> forall k :: k in r.members ==>
      k in patch.members || (target.Object? && k in target.members)
    decreases patch
  {
    if !patch.Object? then patch
    else
      var t := if target.Object? then target.members else map[];
      var p := patch.members;
      Object(map k | k in t.Keys + p.Keys && (k in p ==> p[k] != Null) ::
        if k in p then Merge(if k in t then t[k] else Null, p[k]) else t[k])
  }

  /** The rules of section 2 of RFC 7396, member by member. */
  lemma Section2(target: Value, patch: Value)
    ensures !patch.Object? ==> Merge(target, patch) == patch
    ensures patch.Object? ==> Merge(target, patch).Object?
    ensures patch.Object? ==> forall k :: k in patch.members && patch.members[k] == Null ==>
      k !in Merge(target, patch).members
    ensures patch.Object? ==> forall k :: k in patch.members && patch.members[k] != Null ==>
      k in Merge(target, patch).members &&
      Merge(target, patch).members[k] == Merge(Index(target, k), patch.members[k])
    ensures patch.Object? ==> forall k :: k !in patch.members ==>
      (k in Merge(target, patch).members <==> target.Object? && k in target.members) &&
      (k in Merge(target, patch).members ==> Merge(target, patch).members[k] == target.members[k])
  {
  }

  /** Applying the same patch twice has the effect of applying it once. */
  lemma {:induction false} MergeIdempotent(target: Value, patch: Value)
    ensures Merge(Merge(target, patch), patch) == Merge(target, patch)
    decreases patch
  {
    if patch.Object? {
      var once := Merge(target, patch);
      var twice := Merge(once, patch);
      Section2(target, patch);
      Section2(once, patch);
      forall k | k in patch.members && patch.members[k] != Null
        ensures twice.members[k] == once.members[k]
      {
        MergeIdempotent(Index(target, k), patch.members[k]);
      }
      assert twice.members == once.members;
    }
  }

  /**
    Where the patch holds a non-null value at a path, the merged tree holds
    the merge of the target's value there with the patch's value there.
   */
  lemma {:induction false} LookupMerge(target: Value, patch: Value, path: seq<string>)
    requires Lookup(patch, path) != Null
    ensures Lookup(Merge(target, patch), path) == Merge(Lookup(target, path), Lookup(patch, path))
    decreases path
  {
    if path != [] {
      var k := path[0];
      if Index(patch, k) == Null {
        assert false;
      }
      Section2(target, patch);
      assert Index(Merge(target, patch), k) == Merge(Index(target, k), Index(patch, k));
      LookupMerge(Index(target, k), Index(patch, k), path[1..]);
    }
  }

  /**
    The patch says nothing about `path`: it is an object, and along the path
    it either lacks the next key or holds an object that again says nothing.
   */
  predicate Untouched(patch: Value, path: seq<string>)
    decreases path
  {
    && |path| > 0
    && patch.Object?
    && (path[0] !in patch.members || Untouched(patch.members[path[0]], path[1..]))
  }

  /** A path the patch says nothing about keeps the target's value. */
  lemma {:induction false} LookupMergeUntouched(target: Value, patch: Value, path: seq<string>)
    requires Untouched(patch, path)
    ensures Lookup(patch, path) == Null
    ensures Lookup(Merge(target, patch), path) == Lookup(target, path)
    decreases path
  {
    var k := path[0];
    Section2(target, patch);
    if k !in patch.members {
      assert Index(Merge(target, patch), k) == Index(target, k);
    } else {
      assert Index(Merge(target, patch), k) == Merge(Index(target, k), Index(patch, k));
      LookupMergeUntouched(Index(target, k), Index(patch, k), path[1..]);
    }
  }

  /**
    Merging the empty object `{}` keeps an object target and turns any other
    target into `{}`.
   */
  lemma MergeEmptyPatch(target: Value)
    ensures target.Object? ==> Merge(target, EmptyObject()) == target
    ensures !target.Object? ==> Merge(target, EmptyObject()) == EmptyObject()
  {
  }
}
