/** What Rust resolution promises about every reference. */
module ResolveFacts {
  import opened Sequences
  import opened Texts
  import opened Paths
  import opened RustPaths
  import opened ResolveRust

  /**
   * Every reference resolves to the first existing file of one candidate order. When there
   * is none, a `crate`, `self` or `super` path stays unresolved and any other is external.
   */
  lemma ResolvesToFirstCandidate(text: string, importing: string, known: set<string>)
    ensures var r, files := ResolutionOf(text, importing, known), Files(Tries(text, importing, known));
            && (r.Resolved? ==> r.path in known && FirstExisting(r.path, files, known))
            && (r.Unresolved? <==> IsInternal(text) && NoneExist(files, known))
            && (r.External? <==> !IsInternal(text) && NoneExist(files, known))
  {
    SearchFindsFirst(Tries(text, importing, known), known);
    NeverExternal(Tries(text, importing, known), known);
  }

  /** The files of a relative reference, in order: each base's prefixes, then each base's module. */
  lemma RelativeOrder(rest: string, strict: string, legacy: string)
    ensures Files(RelativeTries(rest, strict, legacy))
         == Files(BaseTries(rest, strict, Some(Low))) + Files(BaseTries(rest, legacy, Some(Low)))
          + (Files(ModuleTries(strict, Some(Low))) + Files(ModuleTries(legacy, Some(Low))))
  {
    var a, b := BaseTries(rest, strict, Some(Low)), BaseTries(rest, legacy, Some(Low));
    var c, d := ModuleTries(strict, Some(Low)), ModuleTries(legacy, Some(Low));
    assert [strict, legacy][1..] == [legacy] && [legacy][1..] == [];
    assert EachBase(rest, [legacy]) == b + [] == b;
    assert EachModule([legacy]) == d + [] == d;
    FilesConcat(a + b, c + d);
    FilesConcat(a, b);
    FilesConcat(c, d);
  }

  lemma {:induction false} FilesConcat(a: seq<Try>, b: seq<Try>)
    ensures Files(a + b) == Files(a) + Files(b)
    decreases |a|
  {
    if a == [] {
      assert a + b == b;
    } else {
      FilesConcat(a[1..], b);
      assert (a + b)[1..] == a[1..] + b;
      ConcatAssociative(a[0].files, Files(a[1..]), Files(b));
    }
  }

  // ----- supers

  /** `k` `super` segments before `rest`. */
  function SuperPath(k: nat, rest: string): string {
    if k == 0 then rest else SUPER_ + SuperPath(k - 1, rest)
  }

  /** A path with no `super` segment of its own at its head. */
  predicate Settled(rest: string) {
    !IsSuper(rest)
  }

  lemma {:induction false} SupersOfPath(k: nat, rest: string)
    requires Settled(rest)
    ensures Supers(SuperPath(k, rest)) == (k, rest)
    ensures k > 0 ==> IsSuper(SuperPath(k, rest))
    decreases k
  {
    if k > 0 {
      SupersOfPath(k - 1, rest);
      var text := SuperPath(k, rest);
      assert |text| >= |SUPER_| && text[|SUPER_|..] == SuperPath(k - 1, rest);
      SuperOnce(text);
    }
  }

  lemma NotOtherRoots(text: string)
    requires IsSuper(text)
    ensures !IsCrate(text) && !IsSelf(text)
  {
    assert text[1] == 'u' && CRATE[1] == 'r' && SELF[1] == 'e';
  }

  /** `k` leading `super` segments resolve against the `k`-th parents, the rest untouched. */
  lemma SuperClimbs(k: nat, rest: string, importing: string, known: set<string>)
    requires k > 0 && Settled(rest)
    ensures Tries(SuperPath(k, rest), importing, known)
         == RelativeTries(rest, ParentTimes(RustModuleDir(importing), k), ParentTimes(ParentDir(importing), k))
  {
    SupersOfPath(k, rest);
    NotOtherRoots(SuperPath(k, rest));
  }

  lemma {:induction false} SupersOfBare(k: nat)
    requires k > 0
    ensures Supers(SuperPath(k - 1, SUPER)) == (k, "") && IsSuper(SuperPath(k - 1, SUPER))
    decreases k
  {
    SuperOnce(SUPER);
    if k > 1 {
      SupersOfBare(k - 1);
      var text := SuperPath(k - 1, SUPER);
      assert |text| >= |SUPER_| && text[|SUPER_|..] == SuperPath(k - 2, SUPER);
      SuperOnce(text);
    }
  }

  /** The same when nothing follows: `super`, `super::super` and so on, which is what a group import leaves. */
  lemma BareSuperClimbs(k: nat, importing: string, known: set<string>)
    requires k > 0
    ensures Tries(SuperPath(k - 1, SUPER), importing, known)
         == RelativeTries("", ParentTimes(RustModuleDir(importing), k), ParentTimes(ParentDir(importing), k))
  {
    SupersOfBare(k);
    NotOtherRoots(SuperPath(k - 1, SUPER));
  }

  /** Every path that starts with `super` is of one of these two forms. */
  lemma {:induction false} EverySuperPath(text: string)
    requires IsSuper(text)
    ensures var (k, rest) := Supers(text);
            k > 0 && ((Settled(rest) && text == SuperPath(k, rest)) || (rest == "" && text == SuperPath(k - 1, SUPER)))
    decreases |text|
  {
    SuperOnce(text);
    if text != SUPER {
      var rest := text[|SUPER_|..];
      assert text == SUPER_ + rest;
      if IsSuper(rest) {
        EverySuperPath(rest);
      }
    }
  }

  // ----- confidence

  predicate AllLow(tries: seq<Try>) {
    forall t :: t in tries ==> t.forced == Some(Low)
  }

  lemma {:induction false} LowAttempts(tries: seq<Try>, known: set<string>)
    requires AllLow(tries) && FirstAttempt(tries, known).Resolved?
    ensures FirstAttempt(tries, known).confidence == Low
    decreases |tries|
  {
    assert tries[0] in tries;
    if !Attempt(tries[0], known).Resolved? {
      LowAttempts(tries[1..], known);
    }
  }

  lemma {:induction false} PathTriesAreLow(parts: seq<string>, base: string, take: nat)
    requires take <= |parts|
    ensures AllLow(PathTries(parts, base, take, Some(Low)))
    decreases take
  {
    if take > 0 {
      PathTriesAreLow(parts, base, take - 1);
    }
  }

  lemma BaseTriesAreLow(rest: string, base: string)
    ensures AllLow(BaseTries(rest, base, Some(Low)))
  {
    var parts := PathParts(StripTrailingGlob(rest));
    PathTriesAreLow(parts, base, |parts|);
  }

  lemma {:induction false} EachIsLow(rest: string, bases: seq<string>)
    ensures AllLow(EachBase(rest, bases)) && AllLow(EachModule(bases))
    decreases |bases|
  {
    if bases != [] {
      BaseTriesAreLow(rest, bases[0]);
      EachIsLow(rest, bases[1..]);
    }
  }

  /** Without `mod` declarations a relative path is a guess: whatever it resolves to, confidence is low. */
  lemma RelativeIsLow(text: string, importing: string, known: set<string>)
    requires IsSelf(text) || IsSuper(text)
    requires ResolutionOf(text, importing, known).Resolved?
    ensures ResolutionOf(text, importing, known).confidence == Low
  {
    NotCrate(text);
    var (k, rest) := Supers(text);
    var after := if IsSelf(text) then (if text == SELF then "" else text[|SELF_|..]) else rest;
    var climbed := if IsSelf(text) then 0 else k;
    var bases := [ParentTimes(RustModuleDir(importing), climbed), ParentTimes(ParentDir(importing), climbed)];
    EachIsLow(after, bases);
    assert Tries(text, importing, known) == EachBase(after, bases) + EachModule(bases);
    LowAttempts(Tries(text, importing, known), known);
  }

  /** A path that names another crate, or a module of the file itself, is a guess as well. */
  lemma LocalIsLow(text: string, importing: string, known: set<string>)
    requires !IsInternal(text) && ResolutionOf(text, importing, known).Resolved?
    ensures ResolutionOf(text, importing, known).confidence == Low
  {
    BaseTriesAreLow(text, RustModuleDir(importing));
    LowAttempts(Tries(text, importing, known), known);
  }

  lemma NotCrate(text: string)
    requires IsSelf(text) || IsSuper(text)
    ensures !IsCrate(text) && (IsSuper(text) ==> !IsSelf(text))
  {
    if IsSuper(text) {
      NotOtherRoots(text);
    }
    assert SELF[0] == 's' && CRATE[0] == 'c' && SELF_[0] == 's';
  }

  // ----- parents

  /** Each parent drops exactly the last segment, so `k` of them drop `k`, down to the root. */
  lemma {:induction false} ParentDropsSegments(segments: seq<string>, k: nat)
    requires AllNames(segments)
    ensures ParentTimes(Join(segments, '/'), k)
         == Join(segments[..if k < |segments| then |segments| - k else 0], '/')
    decreases k
  {
    if k == 0 {
      assert segments[..|segments|] == segments;
    } else if segments == [] {
      ParentDropsSegments([], k - 1);
    } else {
      var up := segments[..|segments| - 1];
      ParentOfJoin(segments);
      ParentDropsSegments(up, k - 1);
      if k < |segments| {
        assert up[..|up| - (k - 1)] == segments[..|segments| - k];
      }
    }
  }

  lemma {:induction false} ParentOfJoin(segments: seq<string>)
    requires AllNames(segments) && segments != []
    ensures ParentDir(Join(segments, '/')) == Join(segments[..|segments| - 1], '/')
    decreases |segments|
  {
    var last := segments[|segments| - 1];
    JoinLast(segments);
    if |segments| == 1 {
      assert "" + last == last;
      ParentOfTail("", last);
    } else {
      ParentOfSlash(Join(segments[..|segments| - 1], '/'), last);
    }
  }

  lemma {:induction false} JoinLast(segments: seq<string>)
    requires |segments| > 0
    ensures Join(segments, '/') == if |segments| == 1 then segments[0]
                                   else Join(segments[..|segments| - 1], '/') + ['/'] + segments[|segments| - 1]
    decreases |segments|
  {
    if |segments| > 1 {
      JoinLast(segments[1..]);
      var front := segments[..|segments| - 1];
      if |segments| > 2 {
        assert segments[1..][..|segments| - 2] == front[1..];
      } else {
        assert front == [segments[0]];
      }
    }
  }

  lemma {:induction false} ParentOfTail(dir: string, name: string)
    requires '/' !in name
    ensures ParentDir(dir + name) == ParentDir(dir)
    decreases |name|
  {
    if name == "" {
      assert dir + name == dir;
    } else {
      var path := dir + name;
      assert path[..|path| - 1] == dir + name[..|name| - 1];
      ParentOfTail(dir, name[..|name| - 1]);
    }
  }

  lemma ParentOfSlash(dir: string, name: string)
    requires '/' !in name
    ensures ParentDir(dir + ['/'] + name) == dir
  {
    ParentOfTail(dir + ['/'], name);
    assert (dir + ['/'])[..|dir|] == dir;
  }

  // ----- the module directory

  lemma {:induction false} FileNameOf(dir: string, name: string)
    requires '/' !in name
    ensures FileName(dir + ['/'] + name) == name
    decreases |name|
  {
    var path := dir + ['/'] + name;
    if name == "" {
      assert path[|path| - 1] == '/';
    } else {
      assert path[..|path| - 1] == dir + ['/'] + name[..|name| - 1];
      FileNameOf(dir, name[..|name| - 1]);
    }
  }

  lemma {:induction false} FileNameAlone(name: string)
    requires '/' !in name
    ensures FileName(name) == name && ParentDir(name) == ""
    decreases |name|
  {
    if name != "" {
      FileNameAlone(name[..|name| - 1]);
    }
  }

  lemma StemOfRust(stem: string)
    requires stem != ""
    ensures Stem(stem + ".rs") == stem
  {
    var name := stem + ".rs";
    assert name[..|name| - 1] == stem + ['.', 'r'];
    assert (stem + ['.', 'r'])[..|stem| + 1] == stem + ['.'];
    assert (stem + ['.'])[..|stem|] == stem;
    assert BeforeLastDot(stem + ['.']) == Some(stem);
    assert BeforeLastDot(stem + ['.', 'r']) == Some(stem);
  }

  /** The file `stem.rs` of a directory; the project root has no name of its own. */
  function RustFile(dir: string, stem: string): string {
    if dir == "" then stem + ".rs" else dir + ['/'] + (stem + ".rs")
  }

  /**
   * A module root file owns its directory, and any other file the directory named after it,
   * in the project root as anywhere else.
   */
  lemma ModuleDirOfFile(dir: string, stem: string)
    requires '/' !in stem && stem != ""
    ensures RustModuleDir(RustFile(dir, stem))
         == if stem == "mod" || stem == "lib" || stem == "main" then dir
            else if dir == "" then stem else dir + "/" + stem
  {
    var name := stem + ".rs";
    StemOfRust(stem);
    if dir == "" {
      FileNameAlone(name);
    } else {
      FileNameOf(dir, name);
      ParentOfSlash(dir, name);
    }
  }

  // ----- the crate anchor

  /** Which directory above `path`, if any, makes `src` its crate's: the deepest with a manifest. */
  ghost predicate Anchors(owner: Option<string>, path: string, known: set<string>, src: string) {
    match owner
    case None =>
      src == "src" && forall dir :: IsAncestor(dir, path) ==> Under(dir, ["Cargo.toml"]) !in known
    case Some(dir) =>
      src == Under(dir, ["src"]) && IsAncestor(dir, path) && Under(dir, ["Cargo.toml"]) in known
      && forall other :: IsAncestor(other, path) && |other| > |dir| ==> Under(other, ["Cargo.toml"]) !in known
  }

  lemma FilesUnder(dir: string)
    ensures Under(dir, ["Cargo.toml"]) == Manifest(dir) && Under(dir, ["src"]) == SrcOf(dir)
  {
  }

  lemma ParentAnchors(path: string, known: set<string>)
    requires Manifest(ParentDir(path)) in known
    ensures Anchors(Some(ParentDir(path)), path, known, SrcOf(ParentDir(path)))
  {
    AncestorsOfParent(path, ParentDir(path));
    FilesUnder(ParentDir(path));
    forall other | IsAncestor(other, path) ensures |other| <= |ParentDir(path)| {
      AncestorsOfParent(path, other);
    }
  }

  lemma RootHasNoAnchor(path: string, known: set<string>)
    requires ParentDir(path) == "" && Manifest("") !in known
    ensures Anchors(None, path, known, "src")
  {
    forall dir | IsAncestor(dir, path) ensures dir == "" {
      AncestorsOfParent(path, dir);
    }
    FilesUnder("");
  }

  lemma HigherAnchors(path: string, known: set<string>, src: string, owner: Option<string>)
    requires Anchors(owner, ParentDir(path), known, src) && Manifest(ParentDir(path)) !in known
    ensures Anchors(owner, path, known, src)
  {
    FilesUnder(ParentDir(path));
    forall dir ensures IsAncestor(dir, path) <==> dir == ParentDir(path) || IsAncestor(dir, ParentDir(path)) {
      AncestorsOfParent(path, dir);
    }
  }

  /** The crate of a file is that of the deepest directory above it that holds a manifest. */
  lemma {:induction false} CrateIsDeepest(path: string, known: set<string>) returns (owner: Option<string>)
    ensures Anchors(owner, path, known, CrateSrc(ParentDir(path), known))
    decreases |path|
  {
    var dir := ParentDir(path);
    if Manifest(dir) in known {
      owner := Some(dir);
      ParentAnchors(path, known);
    } else if dir == "" {
      owner := None;
      RootHasNoAnchor(path, known);
    } else {
      owner := CrateIsDeepest(dir, known);
      HigherAnchors(path, known, CrateSrc(ParentDir(dir), known), owner);
    }
  }
}
