/**
  Dotted paths such as `"server.port"`: splitting them at every `.` (Rust's
  `str::split('.')`), and the single-key nested patch that a write to such a
  path merges into the runtime overlay.
 */
module DottedPath {
  import opened Json
  import JsonPatch

  /** True when the segment holds no `.`. */
  predicate NoDot(segment: string)
  {
    forall i :: 0 <= i < |segment| ==> segment[i] != '.'
  }

  /**
    The segments between the dots of `path`, in order. There is always at
    least one: the empty path gives the one empty segment, and adjacent or
    trailing dots give empty segments.
   */
  function Split(path: string): (segments: seq<string>)
    ensures |segments| >= 1
    ensures forall i :: 0 <= i < |segments| ==> NoDot(segments[i])
    decreases path
  {
    if path == [] then [""]
    else if path[0] == '.' then [""] + Split(path[1..])
    else
      var rest := Split(path[1..]);
      [[path[0]] + rest[0]] + rest[1..]
  }

  /** The segments glued back together with `.` between them. */
  function Join(segments: seq<string>): string
    requires |segments| >= 1
    decreases segments
  {
    if |segments| == 1 then segments[0] else segments[0] + "." + Join(segments[1..])
  }

  /** Splitting loses nothing: joining the segments gives the path back. */
  lemma {:induction false} JoinSplit(path: string)
    ensures Join(Split(path)) == path
    decreases path
  {
    if path == [] {
    } else if path[0] == '.' {
      JoinSplit(path[1..]);
      var rest := Split(path[1..]);
      assert Split(path)[1..] == rest;
    } else {
      JoinSplit(path[1..]);
      var rest := Split(path[1..]);
      var segments := Split(path);
      assert segments[1..] == rest[1..];
      if |rest| == 1 {
        assert Join(segments) == [path[0]] + rest[0];
      } else {
        assert Join(rest) == rest[0] + "." + Join(rest[1..]);
        assert Join(segments) == [path[0]] + rest[0] + "." + Join(rest[1..]);
      }
    }
  }

  /** A segment without dots splits into itself. */
  lemma {:induction false} SplitNoDot(segment: string)
    requires NoDot(segment)
    ensures Split(segment) == [segment]
    decreases segment
  {
    if segment != [] {
      assert segment[0] != '.';
      SplitNoDot(segment[1..]);
      assert [segment[0]] + segment[1..] == segment;
    }
  }

  /** A dot after a dot-free segment ends that segment. */
  lemma {:induction false} SplitAtDot(segment: string, rest: string)
    requires NoDot(segment)
    ensures Split(segment + "." + rest) == [segment] + Split(rest)
    decreases segment
  {
    if segment == [] {
      assert segment + "." + rest == "." + rest;
    } else {
      var path := segment + "." + rest;
      assert path[0] == segment[0] != '.';
      assert path[1..] == segment[1..] + "." + rest;
      SplitAtDot(segment[1..], rest);
      assert [segment[0]] + segment[1..] == segment;
    }
  }

  /** Dot-free segments survive a join and a split unchanged. */
  lemma {:induction false} SplitJoin(segments: seq<string>)
    requires |segments| >= 1
    requires forall i :: 0 <= i < |segments| ==> NoDot(segments[i])
    ensures Split(Join(segments)) == segments
    decreases segments
  {
    if |segments| == 1 {
      SplitNoDot(segments[0]);
    } else {
      SplitJoin(segments[1..]);
      SplitAtDot(segments[0], Join(segments[1..]));
    }
  }

  /**
    The patch `{s1: {s2: … {sn: leaf} …}}` for the segments `s1 … sn`; with no
    segments it is the leaf itself.
   */
  function Nested(segments: seq<string>, leaf: Value): (patch: Value)
    ensures |segments| >= 1 ==> patch.Object? && patch.members.Keys == {segments[0]}
    ensures Lookup(patch, segments) == leaf
    decreases segments
  {
    if segments == [] then leaf
    else Object(map[segments[0] := Nested(segments[1..], leaf)])
  }

  /** Neither path is a prefix of the other: they part at some segment. */
  predicate Diverge(p: seq<string>, q: seq<string>)
    decreases p
  {
    && |p| >= 1 && |q| >= 1
    && (p[0] != q[0] || Diverge(p[1..], q[1..]))
  }

  /** Merging the nested patch for `p` leaves every path that parts from `p` alone. */
  lemma {:induction false} MergeNestedElsewhere(target: Value, p: seq<string>, leaf: Value, q: seq<string>)
    requires Diverge(p, q)
    ensures Lookup(JsonPatch.Merge(target, Nested(p, leaf)), q) == Lookup(target, q)
    decreases p
  {
    var patch := Nested(p, leaf);
    var merged := JsonPatch.Merge(target, patch);
    JsonPatch.Section2(target, patch);
    if p[0] != q[0] {
      assert Index(merged, q[0]) == Index(target, q[0]);
    } else {
      assert Index(merged, q[0]) == JsonPatch.Merge(Index(target, q[0]), Nested(p[1..], leaf));
      MergeNestedElsewhere(Index(target, q[0]), p[1..], leaf, q[1..]);
    }
  }

  /** Merging the nested patch for a `null` leaf deletes the value at its path. */
  lemma {:induction false} MergeNestedNull(target: Value, p: seq<string>)
    requires |p| >= 1
    ensures Lookup(JsonPatch.Merge(target, Nested(p, Null)), p) == Null
    decreases p
  {
    var patch := Nested(p, Null);
    var merged := JsonPatch.Merge(target, patch);
    JsonPatch.Section2(target, patch);
    if |p| == 1 {
      assert Index(merged, p[0]) == Null;
    } else {
      assert Index(merged, p[0]) == JsonPatch.Merge(Index(target, p[0]), Nested(p[1..], Null));
      MergeNestedNull(Index(target, p[0]), p[1..]);
    }
  }
}
