/** Which plane owns a data home: `home_plane_index` of console-tui/src/store.rs. */
module HomePlane {
  import opened Wrappers
  import opened Seqs

  /** `trim_end_matches('/')` */
  function TrimSlashes(s: string): (r: string)
    ensures r <= s && (r != [] ==> r[|r| - 1] != '/')
    ensures forall i :: |r| <= i < |s| ==> s[i] == '/'
  {
    if s != [] && s[|s| - 1] == '/' then TrimSlashes(s[..|s| - 1]) else s
  }

  /** A path-boundary prefix: the path itself, or a directory above it. */
  predicate Owns(dir: string, path: string) {
    path == dir || (dir <= path && |dir| < |path| && path[|dir|] == '/')
  }

  function Dir(planes: seq<string>, i: nat): string
    requires i < |planes|
  {
    TrimSlashes(planes[i])
  }

  predicate IsOwner(planes: seq<string>, i: nat, path: string) {
    i < |planes| && Dir(planes, i) != "" && Owns(Dir(planes, i), path)
  }

  /** No owner has a longer directory, and none before it one as long. */
  ghost predicate IsFirstLongest(planes: seq<string>, path: string, r: Option<nat>, n: nat)
    requires n <= |planes|
  {
    match r
    case None => forall i :: 0 <= i < n ==> !IsOwner(planes, i, path)
    case Some(best) =>
      && best < n && IsOwner(planes, best, path)
      && (forall i :: 0 <= i < n && IsOwner(planes, i, path) ==> |Dir(planes, i)| <= |Dir(planes, best)|)
      && (forall i :: 0 <= i < best && IsOwner(planes, i, path) ==> |Dir(planes, i)| < |Dir(planes, best)|)
  }

  /** The planes are given by their data directories. */
  method HomePlaneIndex(planes: seq<string>, path: string) returns (r: Option<nat>)
    ensures IsFirstLongest(planes, path, r, |planes|)
  {
    var best: Option<(nat, nat)> := None;
    for i := 0 to |planes|
      invariant best.Some? ==> best.value.0 < i && best.value.1 == |Dir(planes, best.value.0)|
      invariant IsFirstLongest(planes, path, if best.Some? then Some(best.value.0) else None, i)
    {
      var d := TrimSlashes(planes[i]);
      if d == "" {
        continue;
      }
      var owns := path == d || (d <= path && |path[|d|..]| > 0 && path[|d|..][0] == '/');
      if owns && (best.None? || |d| > best.value.1) {
        best := Some((i, |d|));
      }
    }
    r := if best.Some? then Some(best.value.0) else None;
  }

  /** Two directories that own the same path are nested, and of equal length only when equal. */
  lemma OwnersAreNested(a: string, b: string, path: string)
    requires Owns(a, path) && Owns(b, path) && |a| <= |b|
    ensures Owns(a, b)
    ensures |a| == |b| ==> a == b
  {
    assert a == path[..|a|] && b == path[..|b|];
    if |a| < |b| {
      assert b[|a|] == path[|a|];
    }
  }

  /** So the plane found is the innermost: every other owner's directory owns the found one's. */
  lemma FoundIsInnermost(planes: seq<string>, path: string, best: nat, i: nat)
    requires IsFirstLongest(planes, path, Some(best), |planes|) && IsOwner(planes, i, path)
    ensures Owns(Dir(planes, i), Dir(planes, best))
    ensures i < best ==> Dir(planes, i) != Dir(planes, best)
  {
    OwnersAreNested(Dir(planes, i), Dir(planes, best), path);
  }

  /** The answer is unique. */
  lemma FirstLongestIsUnique(planes: seq<string>, path: string, r1: Option<nat>, r2: Option<nat>)
    requires IsFirstLongest(planes, path, r1, |planes|) && IsFirstLongest(planes, path, r2, |planes|)
    ensures r1 == r2
  {
    if r1.Some? && r2.Some? {
      assert |Dir(planes, r1.value)| == |Dir(planes, r2.value)|;
    }
  }

  // ----- directories, segment by segment

  predicate IsSlash(c: char) {
    c == '/'
  }

  /** The segments of a path, between its slashes. */
  function Segments(path: string): (r: seq<string>)
    ensures r != []
    decreases |path|
  {
    var k := Skip(path, IsSlash);
    if k < |path| then [path[..k]] + Segments(path[k + 1..]) else [path]
  }

  function WithSlashes(segments: seq<string>): string
    requires segments != []
  {
    if |segments| == 1 then segments[0] else segments[0] + "/" + WithSlashes(segments[1..])
  }

  lemma {:induction false} SegmentsMakePath(path: string)
    ensures WithSlashes(Segments(path)) == path
    decreases |path|
  {
    var k := Skip(path, IsSlash);
    if k < |path| {
      SegmentsMakePath(path[k + 1..]);
      assert Segments(path)[1..] == Segments(path[k + 1..]);
    }
  }

  lemma FirstSegment(head: string, rest: string)
    requires forall j :: 0 <= j < |head| ==> !IsSlash(head[j])
    ensures Segments(head + "/" + rest) == [head] + Segments(rest) && Segments(head) == [head]
  {
    var path := head + "/" + rest;
    SkipIs(path, IsSlash, |head|);
    SkipIs(head, IsSlash, |head|);
    assert path[..|head|] == head && path[|head| + 1..] == rest;
  }

  lemma {:induction false} SegmentsOfTwo(a: string, b: string)
    ensures Segments(a + "/" + b) == Segments(a) + Segments(b)
    decreases |a|
  {
    hide Segments, Skip;
    var k := Skip(a, IsSlash);
    var head := a[..k];
    if k < |a| {
      var tail := a[k + 1..];
      SegmentsOfTwo(tail, b);
      FirstSegment(head, tail);
      FirstSegment(head, tail + "/" + b);
      assert a == head + "/" + tail;
      assert a + "/" + b == head + "/" + (tail + "/" + b);
      assert [head] + (Segments(tail) + Segments(b)) == [head] + Segments(tail) + Segments(b);
    } else {
      assert a == head;
      FirstSegment(a, b);
    }
  }

  lemma {:induction false} PathOfTwo(x: seq<string>, y: seq<string>)
    requires x != [] && y != []
    ensures WithSlashes(x + y) == WithSlashes(x) + "/" + WithSlashes(y)
  {
    if |x| == 1 {
      assert (x + y)[1..] == y;
    } else {
      PathOfTwo(x[1..], y);
      assert (x + y)[1..] == x[1..] + y;
      assert x[0] + "/" + (WithSlashes(x[1..]) + "/" + WithSlashes(y)) == WithSlashes(x) + "/" + WithSlashes(y);
    }
  }

  /** A directory owns a path exactly when its segments are the first of the path's: never a part of a segment. */
  lemma OwnsBySegment(dir: string, path: string)
    ensures Owns(dir, path) <==> Segments(dir) <= Segments(path)
  {
    hide Segments, WithSlashes;
    if Owns(dir, path) && path != dir {
      var n := |dir|;
      assert path == dir + "/" + path[n + 1..];
      SegmentsOfTwo(dir, path[n + 1..]);
    }
    if Segments(dir) <= Segments(path) && Segments(dir) != Segments(path) {
      var more := Segments(path)[|Segments(dir)|..];
      assert Segments(path) == Segments(dir) + more;
      PathOfTwo(Segments(dir), more);
      SegmentsMakePath(dir);
      SegmentsMakePath(path);
      assert path[..|dir|] == dir && path[|dir|] == '/';
    }
    if Segments(dir) == Segments(path) {
      SegmentsMakePath(dir);
      SegmentsMakePath(path);
    }
  }
}
