/** Rust `use` paths resolved onto project files. */
module ResolveRust {
  import opened Sequences
  import opened Texts
  import opened Paths
  import opened RustPaths

  const CRATE: string := "crate"
  const CRATE_: string := "crate::"
  const SELF: string := "self"
  const SELF_: string := "self::"
  const SUPER: string := "super"
  const SUPER_: string := "super::"

  /** Where the files of a Rust file's submodules are looked for. */
  function RustModuleDir(path: string): string {
    var parent, stem := ParentDir(path), FileStem(path);
    if stem == "mod" || stem == "lib" || stem == "main" then parent
    else if parent == "" then stem
    else parent + "/" + stem
  }

  function Manifest(dir: string): string {
    if dir == "" then "Cargo.toml" else dir + "/Cargo.toml"
  }

  function SrcOf(dir: string): string {
    if dir == "" then "src" else dir + "/src"
  }

  /** The `src` of the nearest directory at or above `dir` that holds a manifest. */
  function CrateSrc(dir: string, known: set<string>): string
    decreases |dir|
  {
    if Manifest(dir) in known then SrcOf(dir)
    else if dir == "" then "src"
    else CrateSrc(ParentDir(dir), known)
  }

  method CrateSrcDir(importing: string, known: set<string>) returns (src: string)
    ensures src == CrateSrc(ParentDir(importing), known)
  {
    var dir := ParentDir(importing);
    while true
      invariant CrateSrc(dir, known) == CrateSrc(ParentDir(importing), known)
      decreases |dir|
    {
      if Manifest(dir) in known {
        return SrcOf(dir);
      }
      if dir == "" {
        return "src";
      }
      dir := ParentDir(dir);
    }
  }

  // ----- the candidate order of a whole reference

  /** How many `super` segments lead a path, and what follows them. */
  function Supers(text: string): (nat, string)
    decreases |text|
  {
    if text == SUPER then (1, "")
    else if SUPER_ <= text then
      var (k, rest) := Supers(text[|SUPER_|..]);
      (k + 1, rest)
    else (0, text)
  }

  function RootTries(base: string): seq<Try> {
    [Try([base + "/lib.rs", base + "/main.rs"], None)]
  }

  function CrateTries(rest: string, base: string): seq<Try> {
    if StripTrailingGlob(rest) == "" then RootTries(base)
    else BaseTries(rest, base, None) + ModuleTries(base, Some(Low))
  }

  /** Longest prefix under the strict base, then under the legacy base, then each base's own module. */
  function RelativeTries(rest: string, strict: string, legacy: string): seq<Try> {
    EachBase(rest, [strict, legacy]) + EachModule([strict, legacy])
  }

  predicate IsCrate(text: string) { text == CRATE || CRATE_ <= text }

  predicate IsSelf(text: string) { text == SELF || SELF_ <= text }

  predicate IsSuper(text: string) { text == SUPER || SUPER_ <= text }

  /** Paths that can only name the project's own files. */
  predicate IsInternal(text: string) {
    IsCrate(text) || IsSelf(text) || IsSuper(text)
  }

  /** Everything tried for the trimmed reference `text`, in order. */
  function Tries(text: string, importing: string, known: set<string>): seq<Try> {
    if text == CRATE then RootTries(CrateSrc(ParentDir(importing), known))
    else if CRATE_ <= text then CrateTries(text[|CRATE_|..], CrateSrc(ParentDir(importing), known))
    else if IsSelf(text) then
      RelativeTries(if text == SELF then "" else text[|SELF_|..], RustModuleDir(importing), ParentDir(importing))
    else if IsSuper(text) then
      var (k, rest) := Supers(text);
      RelativeTries(rest, ParentTimes(RustModuleDir(importing), k), ParentTimes(ParentDir(importing), k))
    else BaseTries(text, RustModuleDir(importing), Some(Low))
  }

  /** What a reference resolves to: a path that could name another crate is external when nothing matches. */
  function ResolutionOf(text: string, importing: string, known: set<string>): Resolution {
    var found := FirstAttempt(Tries(text, importing, known), known);
    if found.Resolved? || IsInternal(text) then found else External
  }

  // ----- the resolver

  method ResolveCrate(text: string, importing: string, known: set<string>) returns (resolution: Resolution)
    requires IsCrate(text)
    ensures resolution == FirstAttempt(Tries(text, importing, known), known)
  {
    var base := CrateSrcDir(importing, known);
    var roots := [base + "/lib.rs", base + "/main.rs"];
    OneTry(Try(roots, None), known);
    if text == CRATE || StripTrailingGlob(text[|CRATE_|..]) == "" {
      return Pick(roots, known);
    }
    var rest := text[|CRATE_|..];
    FirstAttemptConcat(BaseTries(rest, base, None), ModuleTries(base, Some(Low)), known);
    resolution := ResolveFromBase(rest, base, known, None);
    if !resolution.Resolved? {
      ModuleFileIsFirst(base, known, Some(Low));
      resolution := ResolveModuleFile(base, known, Some(Low));
    }
  }

  /** Strips the leading `super` segments, climbing both bases by one directory for each. */
  method ClimbSupers(text: string, importing: string) returns (rest: string, strict: string, legacy: string)
    requires IsSuper(text)
    ensures var (k, r) := Supers(text);
            && rest == r
            && strict == ParentTimes(RustModuleDir(importing), k)
            && legacy == ParentTimes(ParentDir(importing), k)
  {
    rest := if text == SUPER then "" else text[|SUPER_|..];
    strict := ParentDir(RustModuleDir(importing));
    legacy := ParentDir(ParentDir(importing));
    ghost var climbed := 1;
    SuperOnce(text);
    while SUPER_ <= rest
      invariant strict == ParentTimes(RustModuleDir(importing), climbed)
      invariant legacy == ParentTimes(ParentDir(importing), climbed)
      invariant Supers(text) == (climbed + Supers(rest).0, Supers(rest).1)
      decreases |rest|
    {
      SuperOnce(rest);
      ParentOnceMore(RustModuleDir(importing), climbed);
      ParentOnceMore(ParentDir(importing), climbed);
      rest := rest[|SUPER_|..];
      strict := ParentDir(strict);
      legacy := ParentDir(legacy);
      climbed := climbed + 1;
    }
    if rest == SUPER {
      ParentOnceMore(RustModuleDir(importing), climbed);
      ParentOnceMore(ParentDir(importing), climbed);
      rest := "";
      strict := ParentDir(strict);
      legacy := ParentDir(legacy);
    }
  }

  lemma SuperOnce(text: string)
    requires IsSuper(text)
    ensures var rest := if text == SUPER then "" else text[|SUPER_|..];
            Supers(text) == (1 + Supers(rest).0, Supers(rest).1)
  {
    assert SUPER != "" && !(SUPER_ <= "");
    assert |SUPER| < |SUPER_|;
  }

  lemma {:induction false} ParentOnceMore(dir: string, k: nat)
    ensures ParentTimes(dir, k + 1) == ParentDir(ParentTimes(dir, k))
    decreases k
  {
    if k > 0 {
      ParentOnceMore(ParentDir(dir), k - 1);
    }
  }

  method Resolve(reference: string, importing: string, known: set<string>) returns (resolution: Resolution)
    ensures resolution == ResolutionOf(Trim(reference), importing, known)
  {
    var text := Trim(reference);
    NeverExternal(Tries(text, importing, known), known);
    if IsCrate(text) {
      resolution := ResolveCrate(text, importing, known);
      return;
    }
    if IsSelf(text) {
      var rest := if text == SELF then "" else text[|SELF_|..];
      resolution := FirstResolved(rest, [RustModuleDir(importing), ParentDir(importing)], known);
      return;
    }
    if IsSuper(text) {
      var rest, strict, legacy := ClimbSupers(text, importing);
      resolution := FirstResolved(rest, [strict, legacy], known);
      return;
    }
    resolution := ResolveFromBase(text, RustModuleDir(importing), known, Some(Low));
    if !resolution.Resolved? {
      return External;
    }
  }
}
