/** The candidate files of a Rust module path, and the searches through them. */
module RustPaths {
  import opened Sequences
  import opened Texts
  import opened Paths

  datatype Confidence = High | Low

  datatype Resolution = Resolved(path: string, confidence: Confidence) | Unresolved | External

  /** The candidates that exist, in order. */
  function Existing(candidates: seq<string>, known: set<string>): seq<string> {
    if candidates == [] then []
    else (if candidates[0] in known then [candidates[0]] else []) + Existing(candidates[1..], known)
  }

  /** One existing candidate is a sure match; of several, the first is a guess. */
  function Pick(candidates: seq<string>, known: set<string>): Resolution {
    var matches := Existing(candidates, known);
    if matches == [] then Unresolved
    else Resolved(matches[0], if |matches| == 1 then High else Low)
  }

  function Forced(resolution: Resolution, forced: Option<Confidence>): Resolution {
    if resolution.Resolved? && forced.Some? then resolution.(confidence := forced.value) else resolution
  }

  function ModuleFiles(dir: string): seq<string> {
    [dir + ".rs", dir + "/mod.rs", dir + "/lib.rs", dir + "/main.rs"]
  }

  function ResolveModuleFile(dir: string, known: set<string>, forced: Option<Confidence>): Resolution {
    if dir == "" then Unresolved else Forced(Pick(ModuleFiles(dir), known), forced)
  }

  function TrimColons(s: string): string {
    if s != "" && s[|s| - 1] == ':' then TrimColons(s[..|s| - 1]) else s
  }

  function WithoutStar(s: string): string {
    if s != "" && s[|s| - 1] == '*' then s[..|s| - 1] else s
  }

  /** A use path without its trailing `::*`. */
  function StripTrailingGlob(rest: string): string {
    TrimColons(WithoutStar(Trim(rest)))
  }

  /** The non-empty pieces of a path between `::` separators, taken from the left. */
  function PathParts(path: string): seq<string> {
    PartsFrom(path, "")
  }

  function PartsFrom(path: string, part: string): (r: seq<string>)
    decreases |path|
  {
    if path == "" then (if part == "" then [] else [part])
    else if |path| >= 2 && path[0] == ':' && path[1] == ':' then
      (if part == "" then [] else [part]) + PartsFrom(path[2..], "")
    else PartsFrom(path[1..], part + [path[0]])
  }

  // ----- the candidate order

  /** Candidates that are tried together, and the confidence a match is given whatever it is. */
  datatype Try = Try(files: seq<string>, forced: Option<Confidence>)

  function Attempt(attempt: Try, known: set<string>): Resolution {
    Forced(Pick(attempt.files, known), attempt.forced)
  }

  /** The first attempt that finds a file. */
  function FirstAttempt(tries: seq<Try>, known: set<string>): Resolution {
    if tries == [] then Unresolved
    else
      var first := Attempt(tries[0], known);
      if first.Resolved? then first else FirstAttempt(tries[1..], known)
  }

  function ModuleTries(dir: string, forced: Option<Confidence>): seq<Try> {
    if dir == "" then [] else [Try(ModuleFiles(dir), forced)]
  }

  /** The file of the module named by the first `take` parts, unless they climb out of the project. */
  function PrefixTries(parts: seq<string>, base: string, take: nat, forced: Option<Confidence>): seq<Try>
    requires take <= |parts|
  {
    match Joined(base, Join(parts[..take], '/'))
    case None => []
    case Some(joined) => [Try([joined + ".rs", joined + "/mod.rs"], forced)]
  }

  /** The longest prefix first, down to one part. */
  function PathTries(parts: seq<string>, base: string, take: nat, forced: Option<Confidence>): seq<Try>
    requires take <= |parts|
  {
    if take == 0 then [] else PrefixTries(parts, base, take, forced) + PathTries(parts, base, take - 1, forced)
  }

  function BaseTries(rest: string, base: string, forced: Option<Confidence>): seq<Try> {
    var segments := StripTrailingGlob(rest);
    if segments == "" then ModuleTries(base, forced)
    else PathTries(PathParts(segments), base, |PathParts(segments)|, forced)
  }

  function EachBase(rest: string, bases: seq<string>): seq<Try> {
    if bases == [] then [] else BaseTries(rest, bases[0], Some(Low)) + EachBase(rest, bases[1..])
  }

  function EachModule(bases: seq<string>): seq<Try> {
    if bases == [] then [] else ModuleTries(bases[0], Some(Low)) + EachModule(bases[1..])
  }

  lemma {:induction false} FirstAttemptConcat(a: seq<Try>, b: seq<Try>, known: set<string>)
    ensures FirstAttempt(a + b, known)
         == if FirstAttempt(a, known).Resolved? then FirstAttempt(a, known) else FirstAttempt(b, known)
    decreases |a|
  {
    if a == [] {
      assert a + b == b;
    } else {
      FirstAttemptConcat(a[1..], b, known);
      assert (a + b)[1..] == a[1..] + b;
    }
  }

  lemma {:induction false} NeverExternal(tries: seq<Try>, known: set<string>)
    ensures !FirstAttempt(tries, known).External?
    decreases |tries|
  {
    if tries != [] {
      NeverExternal(tries[1..], known);
    }
  }

  lemma OneTry(attempt: Try, known: set<string>)
    ensures FirstAttempt([attempt], known) == Attempt(attempt, known)
  {
    assert FirstAttempt([attempt][1..], known) == Unresolved;
  }

  lemma ModuleFileIsFirst(dir: string, known: set<string>, forced: Option<Confidence>)
    ensures ResolveModuleFile(dir, known, forced) == FirstAttempt(ModuleTries(dir, forced), known)
  {
    if dir != "" {
      OneTry(Try(ModuleFiles(dir), forced), known);
    }
  }

  // ----- the searches

  /** Tries the whole segment chain, then ever shorter prefixes of it. */
  method ResolveRustPath(segments: string, base: string, known: set<string>, forced: Option<Confidence>)
    returns (resolution: Resolution)
    ensures resolution == FirstAttempt(PathTries(PathParts(segments), base, |PathParts(segments)|, forced), known)
  {
    var parts := PathParts(segments);
    if parts == [] {
      return Unresolved;
    }
    ghost var goal := FirstAttempt(PathTries(parts, base, |parts|, forced), known);
    for take := |parts| downto 0
      invariant FirstAttempt(PathTries(parts, base, take, forced), known) == goal
    {
      FirstAttemptConcat(PrefixTries(parts, base, take + 1, forced), PathTries(parts, base, take, forced), known);
      var joined := NormalizeJoin(base, Join(parts[..take + 1], '/'));
      if joined.Some? {
        var candidates := [joined.value + ".rs", joined.value + "/mod.rs"];
        OneTry(Try(candidates, forced), known);
        var picked := Pick(candidates, known);
        if picked.Resolved? {
          return Forced(picked, forced);
        }
      }
    }
    return Unresolved;
  }

  method ResolveFromBase(rest: string, base: string, known: set<string>, forced: Option<Confidence>)
    returns (resolution: Resolution)
    ensures resolution == FirstAttempt(BaseTries(rest, base, forced), known)
  {
    var segments := StripTrailingGlob(rest);
    if segments == "" {
      ModuleFileIsFirst(base, known, forced);
      return ResolveModuleFile(base, known, forced);
    }
    resolution := ResolveRustPath(segments, base, known, forced);
  }

  /** Each base's segment chain in turn, then each base's own module file. */
  method FirstResolved(rest: string, bases: seq<string>, known: set<string>) returns (resolution: Resolution)
    ensures resolution == FirstAttempt(EachBase(rest, bases) + EachModule(bases), known)
  {
    FirstAttemptConcat(EachBase(rest, bases), EachModule(bases), known);
    for i := 0 to |bases|
      invariant FirstAttempt(EachBase(rest, bases[i..]), known) == FirstAttempt(EachBase(rest, bases), known)
    {
      assert bases[i..][1..] == bases[i + 1..];
      FirstAttemptConcat(BaseTries(rest, bases[i], Some(Low)), EachBase(rest, bases[i + 1..]), known);
      resolution := ResolveFromBase(rest, bases[i], known, Some(Low));
      if resolution.Resolved? {
        return;
      }
    }
    for i := 0 to |bases|
      invariant FirstAttempt(EachModule(bases[i..]), known) == FirstAttempt(EachModule(bases), known)
    {
      assert bases[i..][1..] == bases[i + 1..];
      FirstAttemptConcat(ModuleTries(bases[i], Some(Low)), EachModule(bases[i + 1..]), known);
      ModuleFileIsFirst(bases[i], known, Some(Low));
      resolution := ResolveModuleFile(bases[i], known, Some(Low));
      if resolution.Resolved? {
        return;
      }
    }
    return Unresolved;
  }

  // ----- what the searches find

  /** Every file the attempts name, in the order they are tried. */
  function Files(tries: seq<Try>): seq<string> {
    if tries == [] then [] else tries[0].files + Files(tries[1..])
  }

  /** `path` exists and no file before its place in `files` does. */
  predicate FirstExisting(path: string, files: seq<string>, known: set<string>) {
    exists k :: 0 <= k < |files| && files[k] == path && path in known && NoneExist(files[..k], known)
  }

  predicate NoneExist(files: seq<string>, known: set<string>) {
    forall k :: 0 <= k < |files| ==> files[k] !in known
  }

  lemma {:induction false} PickIsFirst(files: seq<string>, known: set<string>)
    ensures !Pick(files, known).External?
    ensures Pick(files, known).Unresolved? <==> NoneExist(files, known)
    ensures Pick(files, known).Resolved? ==> FirstExisting(Pick(files, known).path, files, known)
    decreases |files|
  {
    if files != [] {
      PickIsFirst(files[1..], known);
      if files[0] in known {
        assert files[..0] == [];
      } else {
        assert [files[0]] + files[1..] == files;
        assert Existing(files, known) == Existing(files[1..], known);
        FirstOfConcat([files[0]], files[1..], known);
      }
    }
  }

  /** A search finds the first existing file of its whole candidate order, or none exists. */
  lemma {:induction false} SearchFindsFirst(tries: seq<Try>, known: set<string>)
    ensures FirstAttempt(tries, known).Unresolved? <==> NoneExist(Files(tries), known)
    ensures FirstAttempt(tries, known).Resolved? ==>
              FirstExisting(FirstAttempt(tries, known).path, Files(tries), known)
    decreases |tries|
  {
    if tries != [] {
      PickIsFirst(tries[0].files, known);
      SearchFindsFirst(tries[1..], known);
      NeverExternal(tries[1..], known);
      FirstOfConcat(tries[0].files, Files(tries[1..]), known);
    }
  }

  lemma FirstOfConcat(a: seq<string>, b: seq<string>, known: set<string>)
    ensures NoneExist(a + b, known) <==> NoneExist(a, known) && NoneExist(b, known)
    ensures forall path :: FirstExisting(path, a, known) ==> FirstExisting(path, a + b, known)
    ensures NoneExist(a, known) ==>
              forall path :: FirstExisting(path, b, known) ==> FirstExisting(path, a + b, known)
  {
    assert forall k :: 0 <= k < |a| ==> a[k] == (a + b)[k];
    assert forall k :: 0 <= k < |b| ==> b[k] == (a + b)[|a| + k];
    forall path | FirstExisting(path, a, known) ensures FirstExisting(path, a + b, known) {
      var k :| 0 <= k < |a| && a[k] == path && NoneExist(a[..k], known);
      assert (a + b)[..k] == a[..k];
      assert (a + b)[k] == path;
    }
    forall path | NoneExist(a, known) && FirstExisting(path, b, known) ensures FirstExisting(path, a + b, known) {
      var k :| 0 <= k < |b| && b[k] == path && NoneExist(b[..k], known);
      assert (a + b)[..|a| + k] == a + b[..k];
      assert (a + b)[|a| + k] == path;
    }
  }

  /** No prefix longer than `take`, up to `n` parts, has a file. */
  predicate NoneLonger(parts: seq<string>, base: string, take: nat, n: nat, forced: Option<Confidence>, known: set<string>)
    requires take <= n <= |parts|
    decreases n
  {
    take == n ||
    (NoneExist(Files(PrefixTries(parts, base, n, forced)), known) && NoneLonger(parts, base, take, n - 1, forced, known))
  }

  /** A path search settles on the longest prefix that has a file: no longer one does. */
  lemma {:induction false} LongestPrefixWins(parts: seq<string>, base: string, n: nat, forced: Option<Confidence>, known: set<string>)
    returns (take: nat)
    requires n <= |parts| && FirstAttempt(PathTries(parts, base, n, forced), known).Resolved?
    ensures 0 < take <= n && NoneLonger(parts, base, take, n, forced, known)
    ensures FirstAttempt(PathTries(parts, base, n, forced), known)
         == FirstAttempt(PrefixTries(parts, base, take, forced), known)
    decreases n
  {
    var here, shorter := PrefixTries(parts, base, n, forced), PathTries(parts, base, n - 1, forced);
    FirstAttemptConcat(here, shorter, known);
    SearchFindsFirst(here, known);
    NeverExternal(here, known);
    if FirstAttempt(here, known).Resolved? {
      take := n;
    } else {
      take := LongestPrefixWins(parts, base, n - 1, forced, known);
    }
  }

  /** An unforced match is sure exactly when no other candidate of its attempt exists. */
  lemma {:induction false} SureIffAlone(files: seq<string>, known: set<string>)
    requires Pick(files, known).Resolved?
    ensures Pick(files, known).confidence.High? <==>
              forall i, j :: 0 <= i < |files| && 0 <= j < |files| && files[i] in known && files[j] in known ==> i == j
    decreases |files|
  {
    ExistingCount(files, known);
    var matches := Existing(files, known);
    if files[0] in known {
      ExistingCount(files[1..], known);
      assert |matches| == 1 <==> NoneExist(files[1..], known);
      if !NoneExist(files[1..], known) {
        var k :| 0 <= k < |files| - 1 && files[1..][k] in known;
        assert files[k + 1] in known;
      } else {
        assert forall i :: 0 < i < |files| ==> files[i] == files[1..][i - 1];
      }
    } else {
      SureIffAlone(files[1..], known);
      assert forall i :: 0 < i < |files| ==> files[i] == files[1..][i - 1];
      assert matches == Existing(files[1..], known);
      if i, j :| 0 <= i < |files| && 0 <= j < |files| && files[i] in known && files[j] in known && i != j {
        assert files[1..][i - 1] in known && files[1..][j - 1] in known;
      }
    }
  }

  lemma {:induction false} ExistingCount(files: seq<string>, known: set<string>)
    ensures Existing(files, known) == [] <==> NoneExist(files, known)
    decreases |files|
  {
    PickIsFirst(files, known);
  }
}
