/** What a crate path resolves to, and how sure that is. */
module CratePaths {
  import opened Sequences
  import opened Paths
  import opened RustPaths
  import opened ResolveRust
  import opened ResolveFacts
  import opened SearchOrders

  /** A pair of candidates: the first that exists, and sure only if the other does not. */
  predicate IsPickOf(r: Resolution, first: string, second: string, known: set<string>) {
    && r.Resolved? && (first in known || second in known)
    && r.path == (if first in known then first else second)
    && r.confidence == if first in known && second in known then Low else High
  }

  lemma PickOfPair(first: string, second: string, known: set<string>)
    ensures var r := FirstAttempt([Try([first, second], None)], known);
            if first in known || second in known then IsPickOf(r, first, second, known) else r.Unresolved?
  {
    OneTry(Try([first, second], None), known);
    assert [first, second][1..] == [second] && [second][1..] == [];
    assert Existing([second], known) == if second in known then [second] else [];
  }

  /** No file of the first `n` names, nor of fewer of them down to more than `take`. */
  predicate NoneDeeper(names: seq<string>, base: string, take: nat, known: set<string>) {
    forall t :: take < t <= |names| ==> Under(base, names[..t]) + ".rs" !in known && Under(base, names[..t]) + "/mod.rs" !in known
  }

  lemma {:induction false} NoneLongerIsDeeper(names: seq<string>, base: string, take: nat, n: nat, known: set<string>)
    requires IsNormal(base) && AllPathNames(names) && take <= n <= |names| && NoneLonger(names, base, take, n, None, known)
    ensures forall t :: take < t <= n ==>
              Under(base, names[..t]) + ".rs" !in known && Under(base, names[..t]) + "/mod.rs" !in known
    decreases n
  {
    if take < n {
      NoneLongerIsDeeper(names, base, take, n - 1, known);
      JoinsUnder(base, names[..n]);
      var files := [Under(base, names[..n]) + ".rs", Under(base, names[..n]) + "/mod.rs"];
      OneTryFirst(Try(files, None), []);
      assert PrefixTries(names, base, n, None) == [Try(files, None)] + [];
      var found := Files(PrefixTries(names, base, n, None));
      assert found == files + [] && found[0] == files[0] && found[1] == files[1];
      assert NoneExist(found, known);
    }
  }

  lemma PathIsSure(names: seq<string>, base: string, known: set<string>) returns (take: nat)
    requires IsNormal(base) && AllPathNames(names) && FirstAttempt(PathTries(names, base, |names|, None), known).Resolved?
    ensures 0 < take <= |names| && NoneDeeper(names, base, take, known)
    ensures IsPickOf(FirstAttempt(PathTries(names, base, |names|, None), known),
                     Under(base, names[..take]) + ".rs", Under(base, names[..take]) + "/mod.rs", known)
  {
    take := LongestPrefixWins(names, base, |names|, None, known);
    NoneLongerIsDeeper(names, base, take, |names|, known);
    JoinsUnder(base, names[..take]);
    PickOfPair(Under(base, names[..take]) + ".rs", Under(base, names[..take]) + "/mod.rs", known);
  }

  /**
   * A crate path resolves to the longest prefix of its names that has a file, and is sure of
   * it unless both of its files exist; failing that to the crate's own module, which is a guess.
   */
  lemma CrateConfidence(dir: string, stem: string, names: seq<string>, glob: bool, known: set<string>) returns (take: nat)
    requires IsRustFile(dir, stem) && AllPathNames(names) && names != []
    requires ResolutionOf(Headed("crate", names, glob), RustFile(dir, stem), known).Resolved?
    ensures take <= |names| && NoneDeeper(names, CrateSrc(dir, known), take, known)
    ensures var r, src := ResolutionOf(Headed("crate", names, glob), RustFile(dir, stem), known), CrateSrc(dir, known);
            if take == 0 then r.path in OwnFiles(src) && r.confidence == Low
            else IsPickOf(r, Under(src, names[..take]) + ".rs", Under(src, names[..take]) + "/mod.rs", known)
  {
    HeadsWithColons();
    HeadedAfter("crate", names, glob);
    DirsOfFile(dir, stem);
    CrateSrcIsNormal(dir, known);
    CrateTriesOf(names, glob, CrateSrc(dir, known));
    take := CrateTriesConfidence(names, CrateSrc(dir, known), known);
  }

  lemma CrateTriesOf(names: seq<string>, glob: bool, src: string)
    requires AllPathNames(names) && names != []
    ensures CrateTries(After(names, glob), src) == PathTries(names, src, |names|, None) + ModuleTries(src, Some(Low))
  {
    StripsGlob(names, glob);
    ColonsTrimmed(names);
    NoColons(names);
    PartsRead(names);
    NamesAreNonEmpty(names);
  }

  lemma CrateTriesConfidence(names: seq<string>, src: string, known: set<string>) returns (take: nat)
    requires IsNormal(src) && AllPathNames(names) && names != []
    requires FirstAttempt(PathTries(names, src, |names|, None) + ModuleTries(src, Some(Low)), known).Resolved?
    ensures take <= |names| && NoneDeeper(names, src, take, known)
    ensures var r := FirstAttempt(PathTries(names, src, |names|, None) + ModuleTries(src, Some(Low)), known);
            if take == 0 then r.path in OwnFiles(src) && r.confidence == Low
            else IsPickOf(r, Under(src, names[..take]) + ".rs", Under(src, names[..take]) + "/mod.rs", known)
  {
    FirstAttemptConcat(PathTries(names, src, |names|, None), ModuleTries(src, Some(Low)), known);
    if FirstAttempt(PathTries(names, src, |names|, None), known).Resolved? {
      take := PathIsSure(names, src, known);
    } else {
      take := 0;
      NothingDeeper(names, src, known);
      ModuleIsGuess(src, known);
    }
  }

  lemma ModuleIsGuess(dir: string, known: set<string>)
    requires FirstAttempt(ModuleTries(dir, Some(Low)), known).Resolved?
    ensures var r := FirstAttempt(ModuleTries(dir, Some(Low)), known);
            r.path in OwnFiles(dir) && r.confidence == Low
  {
    FilesOfModule(dir, Some(Low));
    SearchFindsFirst(ModuleTries(dir, Some(Low)), known);
    LowAttempts(ModuleTries(dir, Some(Low)), known);
  }

  lemma NothingDeeper(names: seq<string>, base: string, known: set<string>)
    requires IsNormal(base) && AllPathNames(names) && !FirstAttempt(PathTries(names, base, |names|, None), known).Resolved?
    ensures NoneDeeper(names, base, 0, known)
  {
    SearchFindsFirst(PathTries(names, base, |names|, None), known);
    NeverExternal(PathTries(names, base, |names|, None), known);
    FilesOfPath(names, base, |names|, None);
    assert names[..|names|] == names;
    PrefixFilesHold(names, base, known);
  }

  lemma {:induction false} PrefixFilesHold(names: seq<string>, base: string, known: set<string>)
    requires NoneExist(PrefixFiles(base, names), known)
    ensures NoneDeeper(names, base, 0, known)
    decreases |names|
  {
    if names != [] {
      var files, front := PrefixFiles(base, names), names[..|names| - 1];
      assert files[0] !in known && files[1] !in known && files[2..] == PrefixFiles(base, front);
      assert forall k :: 0 <= k < |files| - 2 ==> files[2..][k] == files[k + 2];
      PrefixFilesHold(front, base, known);
      forall t | 0 < t <= |names|
        ensures Under(base, names[..t]) + ".rs" !in known && Under(base, names[..t]) + "/mod.rs" !in known
      {
        if t < |names| {
          assert names[..t] == front[..t];
        } else {
          assert names[..t] == names;
        }
      }
    }
  }

  lemma CrateRootTries(text: string, glob: bool, importing: string, known: set<string>)
    requires if glob then CRATE_ <= text && text[|CRATE_|..] == After([], true) else text == CRATE
    ensures Tries(text, importing, known) == RootTries(CrateSrc(ParentDir(importing), known)) && IsCrate(text)
  {
    StripsGlob([], true);
    assert Colons([]) == "";
  }

  /** A path to the crate itself is its root file, and sure unless both kinds of root exist. */
  lemma CrateRootConfidence(dir: string, stem: string, glob: bool, known: set<string>)
    requires IsRustFile(dir, stem)
    ensures var r, src := ResolutionOf(Headed("crate", [], glob), RustFile(dir, stem), known), CrateSrc(dir, known);
            r.Resolved? ==> IsPickOf(r, src + "/lib.rs", src + "/main.rs", known)
  {
    HeadsWithColons();
    DirsOfFile(dir, stem);
    if glob {
      HeadedAfter("crate", [], glob);
    }
    CrateRootTries(Headed("crate", [], glob), glob, RustFile(dir, stem), known);
    PickOfPair(CrateSrc(dir, known) + "/lib.rs", CrateSrc(dir, known) + "/main.rs", known);
  }
}
