/// Node's `path.join` and `path.normalize` on POSIX, as the file service uses them to build
/// the directory and file paths it writes to.
module PosixPath {
  import opened JsCore

  const Separator := "/"

  /** The pieces of a path between its separators, empty ones included. */
  function Segments(path: string): (segs: seq<string>)
    ensures |segs| >= 1
  {
    SplitOn(path, Separator)
  }

  /** One segment of `normalizeString`: "" and "." are dropped, ".." removes the segment
      before it unless that is itself "..", in which case, or at the start, it is kept only
      for a relative path; any other segment is kept. */
  function Step(kept: seq<string>, seg: string, allowAboveRoot: bool): seq<string> {
    if seg == "" || seg == "." then kept
    else if seg == ".." then
      if kept != [] && kept[|kept| - 1] != ".." then kept[..|kept| - 1]
      else if allowAboveRoot then kept + [".."]
      else kept
    else kept + [seg]
  }

  /** The segments left after resolving `segs`, left to right, onto `kept`. */
  function Resolve(kept: seq<string>, segs: seq<string>, allowAboveRoot: bool): seq<string>
    decreases |segs|
  {
    if segs == [] then kept
    else Resolve(Step(kept, segs[0], allowAboveRoot), segs[1..], allowAboveRoot)
  }

  /** `path.posix.normalize`: "." for an empty path; otherwise the resolved segments, with
      the leading "/" of an absolute path and any trailing "/" kept. */
  function Normalize(path: string): (r: string)
    ensures r != []
  {
    if path == [] then "."
    else
      var isAbsolute := path[0] == '/';
      var trailingSeparator := path[|path| - 1] == '/';
      var body := Join(Resolve([], Segments(path), !isAbsolute), Separator);
      if body == [] then
        if isAbsolute then "/" else if trailingSeparator then "./" else "."
      else
        (if isAbsolute then "/" else "") + body + (if trailingSeparator then "/" else "")
  }

  /** `path.posix.join(a, b)`: the non-empty arguments joined by "/", then normalised. */
  function PathJoin(a: string, b: string): (r: string)
    ensures r != []
  {
    if a == [] && b == [] then "."
    else Normalize(if a == [] then b else if b == [] then a else a + Separator + b)
  }

  /** A segment that normalisation keeps as it is: a name other than "." and "..". */
  predicate IsName(seg: string) {
    seg != [] && '/' !in seg && seg != "." && seg != ".."
  }

  /** A relative path that neither starts nor ends with "/" and whose segments are all
      names, such as "processed" or "work/meetings". */
  predicate IsPlainPath(path: string) {
    && path != [] && path[0] != '/' && path[|path| - 1] != '/'
    && forall k :: 0 <= k < |Segments(path)| ==> IsName(Segments(path)[k])
  }

  /** Splitting on a one-character separator distributes over a join with it. */
  lemma {:induction false} SegmentsOfJoin(x: string, y: string)
    ensures Segments(x + Separator + y) == Segments(x) + Segments(y)
    decreases |x|
  {
    var s := x + Separator + y;
    if x == [] {
      assert s == Separator + y;
      assert s[..1] == Separator && s[1..] == y;
    } else if x[0] == '/' {
      assert s[..1] == x[..1] == Separator;
      assert s[1..] == x[1..] + Separator + y;
      SegmentsOfJoin(x[1..], y);
    } else {
      assert s[..1] == [x[0]] && x[..1] == [x[0]];
      assert !StartsWith(s, Separator) && !StartsWith(x, Separator);
      assert s[1..] == x[1..] + Separator + y;
      SegmentsOfJoin(x[1..], y);
      var t1 := Segments(x[1..]);
      assert (t1 + Segments(y))[0] == t1[0];
      assert (t1 + Segments(y))[1..] == t1[1..] + Segments(y);
    }
  }

  /** Names are kept one after another. */
  lemma {:induction false} ResolveNames(kept: seq<string>, segs: seq<string>, allowAboveRoot: bool)
    requires forall k :: 0 <= k < |segs| ==> IsName(segs[k])
    ensures Resolve(kept, segs, allowAboveRoot) == kept + segs
    decreases |segs|
  {
    if segs != [] {
      ResolveNames(kept + [segs[0]], segs[1..], allowAboveRoot);
      assert kept + [segs[0]] + segs[1..] == kept + segs;
    }
  }

  /** Normalising a plain path changes nothing. */
  lemma NormalizePlain(path: string)
    requires IsPlainPath(path)
    ensures Normalize(path) == path
  {
    ResolveNames([], Segments(path), true);
    assert [] + Segments(path) == Segments(path);
    SplitJoinRoundTrip(path, Separator);
  }

  /** Two plain paths are joined with one "/" and nothing else changes; the result is again
      plain. */
  lemma PathJoinPlain(a: string, b: string)
    requires IsPlainPath(a) && IsPlainPath(b)
    ensures PathJoin(a, b) == a + Separator + b
    ensures IsPlainPath(a + Separator + b)
  {
    var s := a + Separator + b;
    SegmentsOfJoin(a, b);
    assert s[0] == a[0] && s[|s| - 1] == b[|b| - 1];
    var segs := Segments(s);
    assert forall k :: 0 <= k < |segs| ==> IsName(segs[k]) by {
      forall k | 0 <= k < |segs|
        ensures IsName(segs[k])
      {
        if k >= |Segments(a)| {
          assert segs[k] == Segments(b)[k - |Segments(a)|];
        }
      }
    }
    NormalizePlain(s);
  }

  /** Joining nothing to a plain path gives the path. */
  lemma PathJoinEmpty(a: string)
    requires IsPlainPath(a)
    ensures PathJoin(a, "") == a
  {
    NormalizePlain(a);
  }

  /** A second argument that opens with "../" climbs out of a one-segment base: the base
      is dropped and the rest is all that is left. */
  lemma PathJoinClimbsOut(base: string, rest: string)
    requires IsName(base) && IsPlainPath(rest)
    ensures PathJoin(base, "../" + rest) == rest
  {
    var s := base + Separator + ("../" + rest);
    assert PathJoin(base, "../" + rest) == Normalize(s);
    SegmentsOfClimb(base, rest);
    assert s[0] == base[0] && s[|s| - 1] == rest[|rest| - 1];
    ResolveClimb(base, Segments(rest));
    SplitJoinRoundTrip(rest, Separator);
    assert Join(Resolve([], Segments(s), true), Separator) == rest;
  }

  lemma SegmentsOfClimb(base: string, rest: string)
    requires IsName(base)
    ensures Segments(base + Separator + ("../" + rest)) == [base, ".."] + Segments(rest)
  {
    assert "../" + rest == ".." + Separator + rest;
    SegmentsOfJoin("..", rest);
    SegmentsOfJoin(base, "../" + rest);
    SegmentsWithoutSeparator(base);
    SegmentsWithoutSeparator("..");
  }

  /** A path without "/" is one segment. */
  lemma SegmentsWithoutSeparator(x: string)
    requires '/' !in x
    ensures Segments(x) == [x]
  {
    forall q | 0 <= q && q + 1 <= |x|
      ensures !OccursAt(x, Separator, q)
    {
      assert x[q..q + 1][0] == x[q];
    }
    SplitOnAbsent(x, Separator);
  }

  /** A name followed by ".." cancels out. */
  lemma ResolveClimb(base: string, segs: seq<string>)
    requires IsName(base) && forall k :: 0 <= k < |segs| ==> IsName(segs[k])
    ensures Resolve([], [base, ".."] + segs, true) == segs
  {
    var all := [base, ".."] + segs;
    assert all[1..][1..] == segs;
    assert Step([], base, true) == [base];
    assert Step([base], "..", true) == [];
    ResolveNames([], segs, true);
    assert [] + segs == segs;
  }
}
