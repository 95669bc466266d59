/** Project-relative forward-slash paths. */
module Paths {
  import opened Sequences
  import opened Texts

  /** The segments of a path; the project root has none. */
  function Segments(path: string): seq<string> {
    if path == "" then [] else Split(path, '/')
  }

  predicate IsName(segment: string) {
    segment != "" && segment != "." && segment != ".." && '/' !in segment
  }

  predicate AllNames(segments: seq<string>) {
    forall k :: 0 <= k < |segments| ==> IsName(segments[k])
  }

  /** A path as the project stores it: no empty, `.` or `..` segment. */
  predicate IsNormal(path: string) {
    AllNames(Segments(path))
  }

  /** One part of a relative path applied to a stack of segments. */
  function Step(segments: seq<string>, part: string): Option<seq<string>> {
    if part == "" || part == "." then Some(segments)
    else if part == ".." then
      if segments == [] then None else Some(segments[..|segments| - 1])
    else Some(segments + [part])
  }

  function Walked(segments: seq<string>, parts: seq<string>): Option<seq<string>>
    decreases |parts|
  {
    if parts == [] then Some(segments)
    else
      match Step(segments, parts[0])
      case None => None
      case Some(next) => Walked(next, parts[1..])
  }

  function Joined(base: string, relative: string): Option<string> {
    match Walked(Segments(base), Split(relative, '/'))
    case None => None
    case Some(segments) => Some(Join(segments, '/'))
  }

  /** `relative` applied to `base` part by part; `None` once it climbs above the project root. */
  method NormalizeJoin(base: string, relative: string) returns (joined: Option<string>)
    ensures joined == Joined(base, relative)
  {
    var segments := if base == "" then [] else Split(base, '/');
    var parts := Split(relative, '/');
    for i := 0 to |parts|
      invariant Walked(segments, parts[i..]) == Walked(Segments(base), parts)
    {
      var part := parts[i];
      assert parts[i..][0] == part && parts[i..][1..] == parts[i + 1..];
      if part == ".." {
        if segments == [] {
          return None;
        }
        segments := segments[..|segments| - 1];
      } else if part != "" && part != "." {
        segments := segments + [part];
      }
    }
    assert parts[|parts|..] == [];
    return Some(Join(segments, '/'));
  }

  // ----- the laws of joining

  lemma {:induction false} WalkedConcat(segments: seq<string>, a: seq<string>, b: seq<string>)
    ensures Walked(segments, a + b) == match Walked(segments, a) case None => None case Some(s) => Walked(s, b)
    decreases |a|
  {
    if a == [] {
      assert a + b == b;
    } else {
      assert (a + b)[1..] == a[1..] + b;
      match Step(segments, a[0]) {
        case None =>
        case Some(next) => WalkedConcat(next, a[1..], b);
      }
    }
  }

  lemma {:induction false} WalkedKeepsNames(segments: seq<string>, parts: seq<string>)
    requires AllNames(segments) && Walked(segments, parts).Some?
    requires forall k :: 0 <= k < |parts| ==> '/' !in parts[k]
    ensures AllNames(Walked(segments, parts).value)
    decreases |parts|
  {
    if parts != [] {
      WalkedKeepsNames(Step(segments, parts[0]).value, parts[1..]);
    }
  }

  lemma SegmentsOfJoin(segments: seq<string>)
    requires AllNames(segments)
    ensures Segments(Join(segments, '/')) == segments
  {
    if segments != [] {
      assert segments[0] != "";
      SplitJoin(segments, '/');
    }
  }

  lemma JoinedSegments(base: string, relative: string)
    requires IsNormal(base) && Joined(base, relative).Some?
    ensures Some(Segments(Joined(base, relative).value)) == Walked(Segments(base), Split(relative, '/'))
    ensures IsNormal(Joined(base, relative).value)
  {
    SplitPieces(relative, '/');
    WalkedKeepsNames(Segments(base), Split(relative, '/'));
    SegmentsOfJoin(Walked(Segments(base), Split(relative, '/')).value);
  }

  /** Joining is an action of relative paths: one after the other is both at once. */
  lemma JoinIsAnAction(base: string, r1: string, r2: string)
    requires IsNormal(base)
    ensures Joined(base, r1 + "/" + r2)
         == match Joined(base, r1) case None => None case Some(middle) => Joined(middle, r2)
  {
    SplitConcat(r1, r2, '/');
    WalkedConcat(Segments(base), Split(r1, '/'), Split(r2, '/'));
    if Joined(base, r1).Some? {
      JoinedSegments(base, r1);
    }
  }

  // ----- what a join gives

  lemma {:induction false} WalkedNames(segments: seq<string>, names: seq<string>)
    requires AllNames(names)
    ensures Walked(segments, names) == Some(segments + names)
    decreases |names|
  {
    if names == [] {
      assert segments + names == segments;
    } else {
      WalkedNames(segments + [names[0]], names[1..]);
      assert (segments + [names[0]]) + names[1..] == segments + names;
    }
  }

  lemma {:induction false} JoinConcat(a: seq<string>, b: seq<string>, c: char)
    requires a != [] && b != []
    ensures Join(a + b, c) == Join(a, c) + [c] + Join(b, c)
    decreases |a|
  {
    assert (a + b)[1..] == a[1..] + b;
    if |a| > 1 {
      JoinConcat(a[1..], b, c);
    } else {
      assert a[1..] + b == b;
    }
  }

  lemma WalkedOne(segments: seq<string>, part: string)
    ensures Walked(segments, [part]) == Step(segments, part)
  {
    assert [part][1..] == [];
  }

  lemma SegmentsJoin(base: string)
    ensures Join(Segments(base), '/') == base
  {
    JoinSplit(base, '/');
  }

  /** Names alone are entered one after the other: they follow the base as they stand. */
  lemma JoinOfNames(base: string, relative: string)
    requires IsNormal(base) && relative != "" && IsNormal(relative)
    ensures Joined(base, relative) == Some(if base == "" then relative else base + "/" + relative)
    ensures Segments(Joined(base, relative).value) == Segments(base) + Split(relative, '/')
  {
    var segments, names := Segments(base), Split(relative, '/');
    WalkedNames(segments, names);
    SegmentsJoin(base);
    JoinSplit(relative, '/');
    if base == "" {
      assert segments + names == names;
    } else {
      JoinConcat(segments, names, '/');
    }
    JoinedSegments(base, relative);
  }

  /** Nothing, and a dot, stay where they are. */
  lemma JoinOfNothing(base: string)
    ensures Joined(base, "") == Some(base) && Joined(base, ".") == Some(base)
  {
    SplitOne("", '/');
    SplitOne(".", '/');
    WalkedOne(Segments(base), "");
    WalkedOne(Segments(base), ".");
    SegmentsJoin(base);
  }

  /** Two dots drop the last segment; at the root there is none to drop. */
  lemma JoinOfParent(base: string)
    requires IsNormal(base)
    ensures base == "" ==> Joined(base, "..").None?
    ensures base != "" ==> Joined(base, "..").Some?
    ensures base != "" ==> Segments(Joined(base, "..").value) == Segments(base)[..|Segments(base)| - 1]
  {
    SplitOne("..", '/');
    WalkedOne(Segments(base), "..");
    if base != "" {
      JoinedSegments(base, "..");
    }
  }

  /** A name entered and left again leads back. */
  lemma NameThenParent(base: string, name: string)
    requires IsNormal(base) && IsName(name)
    ensures Joined(base, name + "/..") == Some(base)
  {
    SplitOne(name, '/');
    assert AllNames(Segments(name));
    JoinOfNames(base, name);
    JoinedSegments(base, name);
    JoinIsAnAction(base, name, "..");
    assert name + "/" + ".." == name + "/..";
    var inside := Joined(base, name).value;
    JoinOfParent(inside);
    JoinedSegments(inside, "..");
    assert (Segments(base) + [name])[..|Segments(base)|] == Segments(base);
    SegmentsJoin(base);
    SegmentsJoin(Joined(inside, "..").value);
  }

  /** Names entered minus `..` steps taken. */
  function Depth(parts: seq<string>): int {
    if parts == [] then 0
    else
      var last := parts[|parts| - 1];
      Depth(parts[..|parts| - 1]) + if last == "" || last == "." then 0 else if last == ".." then -1 else 1
  }

  /** After its first `k` parts the walk stands `Depth` below where it started, and that above the root. */
  lemma {:induction false} WalkedDepth(segments: seq<string>, parts: seq<string>, k: nat)
    requires k <= |parts|
    requires forall i :: 0 <= i <= k ==> |segments| + Depth(parts[..i]) >= 0
    ensures Walked(segments, parts[..k]).Some?
    ensures |Walked(segments, parts[..k]).value| == |segments| + Depth(parts[..k])
  {
    if k > 0 {
      WalkedDepth(segments, parts, k - 1);
      var part := parts[k - 1];
      assert parts[..k] == parts[..k - 1] + [part];
      assert parts[..k][..k - 1] == parts[..k - 1];
      WalkedConcat(segments, parts[..k - 1], [part]);
      var before := Walked(segments, parts[..k - 1]).value;
      assert |segments| + Depth(parts[..k]) >= 0;
      assert Step(before, part).Some?;
    }
  }

  lemma ClimbFails(segments: seq<string>, parts: seq<string>, k: nat)
    requires 0 < k <= |parts| && |segments| + Depth(parts[..k]) < 0
    requires forall i :: 0 <= i < k ==> |segments| + Depth(parts[..i]) >= 0
    ensures Walked(segments, parts).None?
  {
    WalkedDepth(segments, parts, k - 1);
    assert parts == parts[..k - 1] + parts[k - 1..];
    WalkedConcat(segments, parts[..k - 1], parts[k - 1..]);
    assert parts[..k][..k - 1] == parts[..k - 1];
    assert |Walked(segments, parts[..k - 1]).value| == 0;
  }

  /** Whether some prefix of `parts`, taken from `height` segments up, ends above the root. */
  predicate Climbs(height: nat, parts: seq<string>) {
    exists k :: 0 <= k <= |parts| && height + Depth(parts[..k]) < 0
  }

  /** A join fails exactly when some prefix of its parts climbs above the root. */
  lemma JoinFailsIffItClimbs(base: string, relative: string)
    ensures Joined(base, relative).None? <==> Climbs(|Segments(base)|, Split(relative, '/'))
  {
    var segments, parts := Segments(base), Split(relative, '/');
    if Climbs(|segments|, parts) {
      var k :| 0 <= k <= |parts| && |segments| + Depth(parts[..k]) < 0;
      var first := FirstClimb(|segments|, parts, k);
      ClimbFails(segments, parts, first);
    } else {
      WalkedDepth(segments, parts, |parts|);
      assert parts[..|parts|] == parts;
    }
  }

  lemma {:induction false} FirstClimb(height: nat, parts: seq<string>, k: nat) returns (first: nat)
    requires k <= |parts| && height + Depth(parts[..k]) < 0
    ensures 0 < first <= k && height + Depth(parts[..first]) < 0
    ensures forall i :: 0 <= i < first ==> height + Depth(parts[..i]) >= 0
    decreases k
  {
    if i :| 0 <= i < k && height + Depth(parts[..i]) < 0 {
      first := FirstClimb(height, parts, i);
    } else {
      assert parts[..0] == [];
      first := k;
    }
  }

  // ----- directories and stems

  /** The path that names lead to from a directory. */
  function Under(base: string, names: seq<string>): string {
    if base == "" then Join(names, '/') else if names == [] then base else base + "/" + Join(names, '/')
  }

  /** The text before the last `/`, or nothing. */
  function ParentDir(path: string): (r: string)
    ensures |r| < |path| || r == path == ""
  {
    if path == "" then ""
    else if path[|path| - 1] == '/' then path[..|path| - 1]
    else ParentDir(path[..|path| - 1])
  }

  /** The `k`-th parent; the root is its own. */
  function ParentTimes(dir: string, k: nat): string
    decreases k
  {
    if k == 0 then dir else ParentTimes(ParentDir(dir), k - 1)
  }

  function FileName(path: string): string {
    if path == "" || path[|path| - 1] == '/' then "" else FileName(path[..|path| - 1]) + [path[|path| - 1]]
  }

  /** The part of a file name before its last dot, unless that dot leads it. */
  function Stem(name: string): string {
    var before := BeforeLastDot(name);
    if before.None? || before.value == "" then name else before.value
  }

  function BeforeLastDot(name: string): Option<string> {
    if name == "" then None
    else if name[|name| - 1] == '.' then Some(name[..|name| - 1])
    else BeforeLastDot(name[..|name| - 1])
  }

  function FileStem(path: string): string {
    Stem(FileName(path))
  }

  /** Every directory a file lies in, the root included. */
  predicate IsAncestor(dir: string, path: string) {
    dir == "" || dir + "/" <= path
  }

  /** The nearest directory above a path is its parent; the others are above that parent. */
  lemma {:induction false} AncestorsOfParent(path: string, dir: string)
    ensures IsAncestor(ParentDir(path), path)
    ensures IsAncestor(dir, path) <==> dir == ParentDir(path) || IsAncestor(dir, ParentDir(path))
    decreases |path|
  {
    if path != "" {
      var shorter := path[..|path| - 1];
      AncestorsOfParent(shorter, dir);
      if dir != "" {
        assert dir + "/" <= path <==> dir + "/" <= shorter || dir + "/" == path;
        if path[|path| - 1] == '/' {
          assert dir + "/" == path <==> dir == shorter;
        } else {
          assert (dir + "/")[|dir|] == '/';
          assert dir + "/" != path;
        }
      }
    }
  }
}
