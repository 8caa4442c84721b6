/**
 * The POSIX behaviour of Node's `path.normalize`, `path.resolve` and
 * `path.relative`, which the ignore-file matcher relies on. Paths are
 * strings separated by `/`; resolution works on segment lists relative to
 * a working directory given as its segments.
 */
module PosixPath {
  import opened Strings

  const Sep: char := '/'

  /** A segment that normalisation leaves in place: non-empty, not `.` or `..`, no separator. */
  predicate PlainSegment(s: string) {
    s != "" && s != "." && s != ".." && Sep !in s
  }

  predicate PlainSegments(segs: seq<string>) {
    forall i :: 0 <= i < |segs| ==> PlainSegment(segs[i])
  }

  /**
   * One step of normalisation: empty and `.` segments vanish, `..` removes
   * the previous segment unless that is itself `..` (or there is none, when
   * it is kept only where the path may climb above its start).
   */
  function Step(acc: seq<string>, seg: string, allowAbove: bool): seq<string> {
    if seg == "" || seg == "." then acc
    else if seg == ".." then
      if |acc| > 0 && acc[|acc| - 1] != ".." then acc[..|acc| - 1]
      else if allowAbove then acc + [".."]
      else acc
    else acc + [seg]
  }

  /** Normalising a segment list left to right. */
  function NormSegs(segs: seq<string>, allowAbove: bool): (r: seq<string>)
    ensures forall i :: 0 <= i < |r| ==> r[i] != "" && r[i] != "."
    ensures !allowAbove ==> forall i :: 0 <= i < |r| ==> r[i] != ".."
    ensures (forall i :: 0 <= i < |segs| ==> Sep !in segs[i]) ==> forall i :: 0 <= i < |r| ==> Sep !in r[i]
  {
    if |segs| == 0 then [] else Step(NormSegs(segs[..|segs| - 1], allowAbove), segs[|segs| - 1], allowAbove)
  }

  /** Plain segments appended after a normalised prefix stay as they are. */
  lemma {:induction false} NormSegsAppendPlain(a: seq<string>, b: seq<string>, allowAbove: bool)
    requires PlainSegments(b)
    ensures NormSegs(a + b, allowAbove) == NormSegs(a, allowAbove) + b
    decreases |b|
  {
    if |b| == 0 {
      assert a + b == a;
    } else {
      assert (a + b)[..|a + b| - 1] == a + b[..|b| - 1];
      NormSegsAppendPlain(a, b[..|b| - 1], allowAbove);
    }
  }

  lemma {:induction false} NormSegsPlain(segs: seq<string>, allowAbove: bool)
    requires PlainSegments(segs)
    ensures NormSegs(segs, allowAbove) == segs
  {
    NormSegsAppendPlain([], segs, allowAbove);
    assert [] + segs == segs;
  }

  /** `path.normalize`: an absolute path keeps its root, a trailing separator is kept, empty becomes `.`. */
  function Normalize(p: string): (r: string)
    ensures |r| > 0
    ensures |p| > 0 && p[0] == Sep <==> r[0] == Sep
    ensures |p| > 0 && p[|p| - 1] == Sep ==> r[|r| - 1] == Sep
  {
    if p == "" then "."
    else Assemble(p[0] == Sep, p[|p| - 1] == Sep, NormSegs(Split(p, Sep), p[0] != Sep))
  }

  /** The normalised text from its parts; with no segment left, the root or the current directory. */
  function Assemble(absolute: bool, trailing: bool, segs: seq<string>): (r: string)
    requires forall i :: 0 <= i < |segs| ==> segs[i] != "" && Sep !in segs[i]
    ensures |r| > 0
    ensures absolute <==> r[0] == Sep
    ensures trailing ==> r[|r| - 1] == Sep
  {
    JoinedSegmentsStart(segs);
    if |segs| == 0 then (if absolute then "/" else if trailing then "./" else ".")
    else (if absolute then "/" else "") + Join(segs, [Sep]) + (if trailing then "/" else "")
  }

  /** Non-empty segments without a separator join into text that does not start with one. */
  lemma JoinedSegmentsStart(segs: seq<string>)
    requires forall i :: 0 <= i < |segs| ==> segs[i] != "" && Sep !in segs[i]
    ensures |segs| > 0 ==> var p := Join(segs, [Sep]); |p| > 0 && p[0] != Sep
  {
    if |segs| > 0 {
      JoinEnds(segs, [Sep]);
      assert segs[0][0] in segs[0];
    }
  }

  /** A join of plain segments is non-empty and neither starts nor ends with the separator. */
  lemma {:induction false} PlainJoinEnds(segs: seq<string>)
    requires |segs| > 0 && PlainSegments(segs)
    ensures var p := Join(segs, [Sep]); |p| > 0 && p[0] != Sep && p[|p| - 1] != Sep
  {
    JoinEnds(segs, [Sep]);
    var first := segs[0];
    var last := segs[|segs| - 1];
    assert first[0] in first;
    assert last[|last| - 1] in last;
  }

  /** A relative path made of plain segments is already normal. */
  lemma {:induction false} NormalizePlain(segs: seq<string>)
    requires |segs| > 0 && PlainSegments(segs)
    ensures Normalize(Join(segs, [Sep])) == Join(segs, [Sep])
    ensures Split(Join(segs, [Sep]), Sep) == segs
  {
    var p := Join(segs, [Sep]);
    PlainJoinEnds(segs);
    SplitJoin(segs, Sep);
    NormSegsPlain(segs, true);
    assert Normalize(p) == Assemble(false, false, segs);
    assert "" + p + "" == p;
  }

  /**
   * `path.resolve(cwd, p)` as a segment list below the root: an absolute
   * path stands alone, a relative one continues from the working directory.
   */
  function Resolve(cwd: seq<string>, p: string): (r: seq<string>)
    ensures forall i :: 0 <= i < |r| ==> r[i] != "" && r[i] != "." && r[i] != ".."
  {
    if |p| > 0 && p[0] == Sep then NormSegs(Split(p, Sep), false)
    else NormSegs(cwd + Split(p, Sep), false)
  }

  lemma {:induction false} ResolvePlain(cwd: seq<string>, segs: seq<string>)
    requires PlainSegments(cwd) && |segs| > 0 && PlainSegments(segs)
    ensures Resolve(cwd, Join(segs, [Sep])) == cwd + segs
  {
    NormalizePlain(segs);
    PlainJoinEnds(segs);
    NormSegsAppendPlain(cwd, segs, false);
    NormSegsPlain(cwd, false);
  }

  /** The length of the longest common prefix of two segment lists. */
  function CommonPrefix(a: seq<string>, b: seq<string>): (k: nat)
    ensures k <= |a| && k <= |b| && a[..k] == b[..k]
    ensures k < |a| && k < |b| ==> a[k] != b[k]
  {
    if |a| == 0 || |b| == 0 || a[0] != b[0] then 0
    else
      var k := 1 + CommonPrefix(a[1..], b[1..]);
      assert a[..k] == [a[0]] + a[1..][..k - 1];
      assert b[..k] == [b[0]] + b[1..][..k - 1];
      k
  }

  function Ups(n: nat): (r: seq<string>)
    ensures |r| == n && forall i :: 0 <= i < n ==> r[i] == ".."
  {
    seq(n, _ => "..")
  }

  /**
   * `path.relative(from, to)` for resolved paths: one `..` for every segment
   * of `from` below the common prefix, then the rest of `to`.
   */
  function Relative(from: seq<string>, to: seq<string>): (r: string)
    ensures from == to ==> r == ""
  {
    var k := CommonPrefix(from, to);
    Join(Ups(|from| - k) + to[k..], [Sep])
  }

  predicate IsPrefix(p: seq<string>, s: seq<string>) {
    |p| <= |s| && s[..|p|] == p
  }

  /** A path below the working directory is named relative to it by its remaining segments. */
  lemma {:induction false} RelativeInside(cwd: seq<string>, rest: seq<string>)
    ensures Relative(cwd, cwd + rest) == Join(rest, [Sep])
  {
    var k := CommonPrefix(cwd, cwd + rest);
    assert k == |cwd|;
    assert Ups(0) + (cwd + rest)[k..] == rest;
  }

  /** A path not below the working directory is named by climbing with `..` first. */
  lemma {:induction false} RelativeOutside(cwd: seq<string>, to: seq<string>)
    requires !IsPrefix(cwd, to)
    ensures var r := Relative(cwd, to); r == ".." || StartsWith(r, "../")
  {
    var k := CommonPrefix(cwd, to);
    assert k < |cwd|;
    var parts := Ups(|cwd| - k) + to[k..];
    assert parts[0] == "..";
    if |parts| > 1 {
      assert Join(parts, [Sep]) == ".." + [Sep] + Join(parts[1..], [Sep]);
    }
  }
}
