/** Which files a Rust reference is looked for in, written out for every path of names. */
module SearchOrders {
  import opened Sequences
  import opened Texts
  import opened Paths
  import opened RustPaths
  import opened ResolveRust
  import opened ResolveFacts

  // ----- references

  /** Pieces with `::` between them. */
  function Colons(pieces: seq<string>): string {
    if pieces == [] then ""
    else if |pieces| == 1 then pieces[0]
    else pieces[0] + ([':', ':'] + Colons(pieces[1..]))
  }

  predicate IsPathName(name: string) {
    IsName(name) && forall k :: 0 <= k < |name| ==> name[k] != ':' && name[k] != '*' && !IsWhitespace(name[k])
  }

  predicate AllPathNames(names: seq<string>) {
    forall k :: 0 <= k < |names| ==> IsPathName(names[k])
  }

  /** What follows the head of a reference: names, and perhaps a glob after them. */
  function After(names: seq<string>, glob: bool): string {
    if !glob then Colons(names) else if names == [] then ['*'] else Colons(names) + [':'] + [':'] + ['*']
  }

  function NonEmpty(pieces: seq<string>): seq<string> {
    if pieces == [] then [] else (if pieces[0] == "" then [] else [pieces[0]]) + NonEmpty(pieces[1..])
  }

  lemma {:induction false} PartsOfPiece(piece: string, rest: string, part: string)
    requires ':' !in piece
    ensures PartsFrom(piece + rest, part) == PartsFrom(rest, part + piece)
    decreases |piece|
  {
    if piece == "" {
      assert piece + rest == rest && part + piece == part;
    } else {
      assert (piece + rest)[1..] == piece[1..] + rest;
      PartsOfPiece(piece[1..], rest, part + [piece[0]]);
      assert (part + [piece[0]]) + piece[1..] == part + piece;
    }
  }

  /** A path splits at its separators into the pieces between them; empty ones are dropped. */
  lemma {:induction false} PartsRead(pieces: seq<string>)
    requires forall k :: 0 <= k < |pieces| ==> ':' !in pieces[k]
    ensures PathParts(Colons(pieces)) == NonEmpty(pieces)
    decreases |pieces|
  {
    if pieces != [] {
      var rest := if |pieces| == 1 then "" else [':', ':'] + Colons(pieces[1..]);
      assert Colons(pieces) == pieces[0] + rest;
      PartsOfPiece(pieces[0], rest, "");
      assert "" + pieces[0] == pieces[0];
      PartsRead(pieces[1..]);
      if |pieces| > 1 {
        assert rest[2..] == Colons(pieces[1..]);
      }
    }
  }

  lemma {:induction false} NamesAreNonEmpty(names: seq<string>)
    requires AllPathNames(names)
    ensures NonEmpty(names) == names
    decreases |names|
  {
    if names != [] {
      NamesAreNonEmpty(names[1..]);
    }
  }

  // ----- globs

  /** A path of names starts and ends in one of them. */
  lemma ColonsStart(names: seq<string>)
    requires AllPathNames(names) && names != []
    ensures Colons(names) != "" && Colons(names)[0] == names[0][0]
  {
    assert IsPathName(names[0]);
  }

  lemma {:induction false} ColonsEnd(names: seq<string>)
    requires AllPathNames(names) && names != []
    ensures Colons(names) != ""
    ensures var last := names[|names| - 1];
            last != "" && Colons(names)[|Colons(names)| - 1] == last[|last| - 1]
    decreases |names|
  {
    assert IsPathName(names[0]);
    if |names| > 1 {
      var rest := names[1..];
      ColonsEnd(rest);
      assert rest[|rest| - 1] == names[|names| - 1];
    }
  }

  lemma ColonsTrimmed(names: seq<string>)
    requires AllPathNames(names) && names != []
    ensures var text := Colons(names);
            text != "" && Trimmed(text) && text[|text| - 1] != ':' && text[|text| - 1] != '*'
  {
    ColonsStart(names);
    ColonsEnd(names);
    assert IsPathName(names[0]) && IsPathName(names[|names| - 1]);
  }

  lemma NothingToStrip(text: string)
    requires text != "" && Trimmed(text) && text[|text| - 1] != ':' && text[|text| - 1] != '*'
    ensures StripTrailingGlob(text) == text
  {
    TrimOfTrimmed(text);
  }

  lemma StarStripped(text: string, star: char)
    requires text != "" && !IsWhitespace(text[0]) && star == '*'
    ensures StripTrailingGlob(text + [star]) == TrimColons(text)
  {
    var whole := text + [star];
    assert Trimmed(whole);
    TrimOfTrimmed(whole);
    StarDropped(text, star);
  }

  lemma StarDropped(text: string, star: char)
    requires star == '*'
    ensures WithoutStar(text + [star]) == text
  {
  }

  lemma ColonTrimmed(text: string, colon: char)
    requires colon == ':'
    ensures TrimColons(text + [colon]) == TrimColons(text)
  {
    assert (text + [colon])[..|text|] == text;
  }

  lemma GlobStripped(text: string)
    requires text != "" && Trimmed(text) && text[|text| - 1] != ':' && text[|text| - 1] != '*'
    ensures StripTrailingGlob(text + [':'] + [':'] + ['*']) == text
  {
    var once := text + [':'];
    StarStripped(once + [':'], '*');
    ColonTrimmed(once, ':');
    ColonTrimmed(text, ':');
  }

  lemma GlobAlone(text: string)
    requires |text| == 0 || (|text| == 1 && text[0] == '*')
    ensures StripTrailingGlob(text) == ""
  {
    assert Trimmed(text);
    TrimOfTrimmed(text);
    assert |WithoutStar(text)| == 0;
  }

  /** Stripping its glob off what follows a head leaves the names, and nothing of a glob alone. */
  lemma StripsGlob(names: seq<string>, glob: bool)
    requires AllPathNames(names)
    ensures StripTrailingGlob(After(names, glob)) == Colons(names)
  {
    if names == [] {
      GlobAlone(After(names, glob));
      assert Colons(names) == "";
    } else {
      ColonsTrimmed(names);
      NothingToStrip(Colons(names));
      GlobStripped(Colons(names));
    }
  }

  // ----- the files of one base

  /** For the names, then for all but the last, and so on down to the first: its file, then its directory's `mod.rs`. */
  function PrefixFiles(base: string, names: seq<string>): seq<string>
    decreases |names|
  {
    if names == [] then []
    else [Under(base, names) + ".rs", Under(base, names) + "/mod.rs"] + PrefixFiles(base, names[..|names| - 1])
  }

  /** A directory's own module; the project root has none. */
  function OwnFiles(dir: string): seq<string> {
    if dir == "" then [] else [dir + ".rs", dir + "/mod.rs", dir + "/lib.rs", dir + "/main.rs"]
  }

  /** What a base is searched for: its own module when there is nothing to look for in it. */
  function BaseFiles(base: string, names: seq<string>): seq<string> {
    if names == [] then OwnFiles(base) else PrefixFiles(base, names)
  }

  lemma JoinsUnder(base: string, names: seq<string>)
    requires IsNormal(base) && AllPathNames(names) && names != []
    ensures Joined(base, Join(names, '/')) == Some(Under(base, names))
  {
    var relative := Join(names, '/');
    assert AllNames(names);
    SegmentsOfJoin(names);
    assert relative != "" by {
      assert names[0] != "";
    }
    JoinOfNames(base, relative);
  }

  lemma {:induction false} FilesOfPath(parts: seq<string>, base: string, take: nat, forced: Option<Confidence>)
    requires IsNormal(base) && AllPathNames(parts) && take <= |parts|
    ensures Files(PathTries(parts, base, take, forced)) == PrefixFiles(base, parts[..take])
    decreases take
  {
    if take > 0 {
      var names := parts[..take];
      JoinsUnder(base, names);
      FilesOfPath(parts, base, take - 1, forced);
      assert names[..take - 1] == parts[..take - 1];
      var first := Try([Under(base, names) + ".rs", Under(base, names) + "/mod.rs"], forced);
      OneTryFirst(first, PathTries(parts, base, take - 1, forced));
    }
  }

  lemma OneTryFirst(first: Try, rest: seq<Try>)
    ensures Files([first] + rest) == first.files + Files(rest)
  {
    assert ([first] + rest)[1..] == rest;
  }

  lemma FilesOfModule(dir: string, forced: Option<Confidence>)
    ensures Files(ModuleTries(dir, forced)) == OwnFiles(dir)
  {
    if dir != "" {
      OneTryFirst(Try(ModuleFiles(dir), forced), []);
      assert [Try(ModuleFiles(dir), forced)] + [] == ModuleTries(dir, forced);
    }
  }

  lemma FilesOfBase(names: seq<string>, glob: bool, base: string, forced: Option<Confidence>)
    requires IsNormal(base) && AllPathNames(names)
    ensures Files(BaseTries(After(names, glob), base, forced)) == BaseFiles(base, names)
  {
    StripsGlob(names, glob);
    if names == [] {
      FilesOfModule(base, forced);
    } else {
      ColonsTrimmed(names);
      NoColons(names);
      PartsRead(names);
      NamesAreNonEmpty(names);
      FilesOfPath(names, base, |names|, forced);
      assert names[..|names|] == names;
    }
  }

  lemma NoColons(names: seq<string>)
    requires AllPathNames(names)
    ensures forall k :: 0 <= k < |names| ==> ':' !in names[k]
  {
    forall k | 0 <= k < |names| ensures ':' !in names[k] {
      assert IsPathName(names[k]);
    }
  }

  /** Both bases for the names, the strict one first, and then the module of each. */
  function BothFiles(strict: string, legacy: string, names: seq<string>): seq<string> {
    BaseFiles(strict, names) + BaseFiles(legacy, names) + (OwnFiles(strict) + OwnFiles(legacy))
  }

  lemma FilesOfRelative(names: seq<string>, glob: bool, strict: string, legacy: string)
    requires IsNormal(strict) && IsNormal(legacy) && AllPathNames(names)
    ensures Files(RelativeTries(After(names, glob), strict, legacy)) == BothFiles(strict, legacy, names)
  {
    RelativeOrder(After(names, glob), strict, legacy);
    FilesOfBase(names, glob, strict, Some(Low));
    FilesOfBase(names, glob, legacy, Some(Low));
    FilesOfModule(strict, Some(Low));
    FilesOfModule(legacy, Some(Low));
  }

  // ----- the importing file

  /** A file `stem.rs` in a directory of the project. */
  predicate IsRustFile(dir: string, stem: string) {
    IsNormal(dir) && IsName(stem)
  }

  /** The directory its submodules are in. */
  function OwnDir(dir: string, stem: string): string {
    if stem == "mod" || stem == "lib" || stem == "main" then dir else Under(dir, [stem])
  }

  lemma {:induction false} UnderIsNormal(base: string, names: seq<string>)
    requires IsNormal(base) && AllNames(names)
    ensures IsNormal(Under(base, names))
    ensures Segments(Under(base, names)) == Segments(base) + names
  {
    SegmentsJoin(base);
    if base == "" {
      assert Segments(base) + names == names;
      SegmentsOfJoin(names);
    } else if names == [] {
      assert Segments(base) + names == Segments(base);
    } else {
      JoinConcat(Segments(base), names, '/');
      SegmentsOfJoin(Segments(base) + names);
    }
  }

  lemma DirsOfFile(dir: string, stem: string)
    requires IsRustFile(dir, stem)
    ensures RustModuleDir(RustFile(dir, stem)) == OwnDir(dir, stem) && IsNormal(OwnDir(dir, stem))
    ensures ParentDir(RustFile(dir, stem)) == dir
  {
    ModuleDirOfFile(dir, stem);
    UnderIsNormal(dir, [stem]);
    assert Join([stem], '/') == stem;
    assert '/' !in stem + ".rs";
    if dir == "" {
      FileNameAlone(stem + ".rs");
    } else {
      ParentOfSlash(dir, stem + ".rs");
    }
  }

  /** A head, and what follows it if anything does. */
  function Headed(head: string, names: seq<string>, glob: bool): string {
    if names == [] && !glob then head else head + ([':', ':'] + After(names, glob))
  }

  lemma HeadedAfter(head: string, names: seq<string>, glob: bool)
    requires names != [] || glob
    ensures var text := Headed(head, names, glob);
            head + "::" <= text && text[|head| + 2..] == After(names, glob)
  {
    var text, rest := Headed(head, names, glob), After(names, glob);
    assert text == head + [':', ':'] + rest;
    assert (head + [':', ':'] + rest)[|head| + 2..] == rest;
    assert head + "::" == head + [':', ':'];
  }

  // ----- the four forms of a reference

  lemma SelfTries(text: string, importing: string, known: set<string>)
    requires SELF_ <= text
    ensures Tries(text, importing, known)
         == RelativeTries(text[|SELF_|..], RustModuleDir(importing), ParentDir(importing))
  {
    assert text[0] == 's' && CRATE[0] == 'c' && CRATE_[0] == 'c' && |text| > |SELF|;
  }

  lemma BareSelfTries(importing: string, known: set<string>)
    ensures Tries(SELF, importing, known) == RelativeTries("", RustModuleDir(importing), ParentDir(importing))
  {
    assert SELF[0] == 's' && CRATE[0] == 'c' && CRATE_[0] == 'c';
  }

  lemma HeadsWithColons()
    ensures CRATE_ == "crate" + "::" && SELF_ == "self" + "::" && SUPER_ == "super" + "::"
  {
  }

  lemma SelfFiles(text: string, dir: string, stem: string, names: seq<string>, glob: bool, known: set<string>)
    requires IsRustFile(dir, stem) && AllPathNames(names)
    requires if names == [] && !glob then text == SELF else SELF_ <= text && text[|SELF_|..] == After(names, glob)
    ensures Files(Tries(text, RustFile(dir, stem), known)) == BothFiles(OwnDir(dir, stem), dir, names)
  {
    DirsOfFile(dir, stem);
    FilesOfRelative(names, glob, OwnDir(dir, stem), dir);
    if names == [] && !glob {
      assert After(names, glob) == "";
      BareSelfTries(RustFile(dir, stem), known);
    } else {
      SelfTries(text, RustFile(dir, stem), known);
    }
  }

  /** `self`, and `self::` with names: under the file's own directory, then under the one it lies in. */
  lemma SelfSearches(dir: string, stem: string, names: seq<string>, glob: bool, known: set<string>)
    requires IsRustFile(dir, stem) && AllPathNames(names)
    ensures Files(Tries(Headed("self", names, glob), RustFile(dir, stem), known))
         == BothFiles(OwnDir(dir, stem), dir, names)
  {
    HeadsWithColons();
    if names != [] || glob {
      HeadedAfter("self", names, glob);
    }
    SelfFiles(Headed("self", names, glob), dir, stem, names, glob, known);
  }

  lemma {:induction false} ParentsAreNormal(dir: string, k: nat)
    requires IsNormal(dir)
    ensures IsNormal(ParentTimes(dir, k))
  {
    var segments := Segments(dir);
    SegmentsJoin(dir);
    ParentDropsSegments(segments, k);
    SegmentsOfJoin(segments[..if k < |segments| then |segments| - k else 0]);
  }

  /** `super`, `k` times, and names after it: the same two directories, each `k` parents up. */
  lemma SuperSearches(dir: string, stem: string, k: nat, names: seq<string>, glob: bool, known: set<string>)
    requires IsRustFile(dir, stem) && AllPathNames(names) && k > 0 && (names != [] ==> names[0] != "super")
    requires names != [] || glob
    ensures Files(Tries(SuperPath(k, After(names, glob)), RustFile(dir, stem), known))
         == BothFiles(ParentTimes(OwnDir(dir, stem), k), ParentTimes(dir, k), names)
  {
    DirsOfFile(dir, stem);
    ParentsAreNormal(OwnDir(dir, stem), k);
    ParentsAreNormal(dir, k);
    SettledAfter(names, glob);
    SuperClimbs(k, After(names, glob), RustFile(dir, stem), known);
    FilesOfRelative(names, glob, ParentTimes(OwnDir(dir, stem), k), ParentTimes(dir, k));
  }

  lemma SettledAfter(names: seq<string>, glob: bool)
    requires AllPathNames(names) && (names != [] ==> names[0] != "super") && (names != [] || glob)
    ensures Settled(After(names, glob))
  {
    if names != [] {
      HeadOf(names, glob, "super");
    }
  }

  /** Only a path whose first name it is starts with a head. */
  lemma HeadOf(names: seq<string>, glob: bool, head: string)
    requires AllPathNames(names) && names != [] && ':' !in head && names[0] != head
    ensures After(names, glob) != head && !(head + "::" <= After(names, glob))
  {
    NoColons(names);
    OtherHead(After(names, glob), names[0], head);
  }

  lemma OtherHead(text: string, name: string, head: string)
    requires name <= text && (|text| == |name| || text[|name|] == ':')
    requires ':' !in name && ':' !in head && name != head
    ensures text != head && !(head + "::" <= text)
  {
    assert |head| < |name| ==> text[|head|] == name[|head|];
    assert |name| < |head| && |name| < |text| ==> text[|name|] != head[|name|];
    assert |name| == |head| ==> text[..|head|] == name;
    assert |head| < |text| && text[|head|] != ':' ==> (head + "::")[|head|] != text[|head|];
  }

  /** Nothing but `super`, `k` times. */
  lemma BareSuperSearches(dir: string, stem: string, k: nat, known: set<string>)
    requires IsRustFile(dir, stem) && k > 0
    ensures Files(Tries(SuperPath(k - 1, "super"), RustFile(dir, stem), known))
         == BothFiles(ParentTimes(OwnDir(dir, stem), k), ParentTimes(dir, k), [])
  {
    DirsOfFile(dir, stem);
    ParentsAreNormal(OwnDir(dir, stem), k);
    ParentsAreNormal(dir, k);
    assert SUPER == "super";
    BareSuperClimbs(k, RustFile(dir, stem), known);
    assert After([], false) == "";
    FilesOfRelative([], false, ParentTimes(OwnDir(dir, stem), k), ParentTimes(dir, k));
  }

  lemma LocalTries(names: seq<string>, glob: bool, importing: string, known: set<string>)
    requires AllPathNames(names) && names != []
    requires names[0] != "crate" && names[0] != "self" && names[0] != "super"
    ensures Tries(After(names, glob), importing, known) == BaseTries(After(names, glob), RustModuleDir(importing), Some(Low))
    ensures !IsInternal(After(names, glob))
  {
    HeadOf(names, glob, "crate");
    HeadOf(names, glob, "self");
    HeadOf(names, glob, "super");
    HeadsWithColons();
  }

  /** A path with none of these heads: under the file's own directory, and nowhere else. */
  lemma LocalSearches(dir: string, stem: string, names: seq<string>, glob: bool, known: set<string>)
    requires IsRustFile(dir, stem) && AllPathNames(names) && names != []
    requires names[0] != "crate" && names[0] != "self" && names[0] != "super"
    ensures Files(Tries(After(names, glob), RustFile(dir, stem), known)) == PrefixFiles(OwnDir(dir, stem), names)
    ensures !IsInternal(After(names, glob))
  {
    LocalTries(names, glob, RustFile(dir, stem), known);
    DirsOfFile(dir, stem);
    FilesOfBase(names, glob, OwnDir(dir, stem), Some(Low));
  }

  // ----- crates

  lemma {:induction false} CrateSrcIsNormal(dir: string, known: set<string>)
    requires IsNormal(dir)
    ensures IsNormal(CrateSrc(dir, known)) && CrateSrc(dir, known) != ""
    decreases |dir|
  {
    assert IsName("src") && AllNames(["src"]);
    UnderIsNormal("", ["src"]);
    UnderIsNormal(dir, ["src"]);
    assert Join(["src"], '/') == "src";
    assert SrcOf(dir) == Under(dir, ["src"]);
    if Manifest(dir) !in known && dir != "" {
      ParentsAreNormal(dir, 1);
      assert ParentTimes(dir, 1) == ParentTimes(ParentDir(dir), 0);
      CrateSrcIsNormal(ParentDir(dir), known);
    }
  }

  /** The files of a path into the crate whose sources are in `src`. */
  function CrateFiles(src: string, names: seq<string>): seq<string> {
    if names == [] then [src + "/lib.rs", src + "/main.rs"] else PrefixFiles(src, names) + OwnFiles(src)
  }

  lemma BareCrateTries(importing: string, known: set<string>)
    ensures Tries(CRATE, importing, known) == RootTries(CrateSrc(ParentDir(importing), known))
  {
  }

  lemma CrateRestTries(text: string, importing: string, known: set<string>)
    requires CRATE_ <= text
    ensures Tries(text, importing, known) == CrateTries(text[|CRATE_|..], CrateSrc(ParentDir(importing), known))
  {
    assert |text| > |CRATE|;
  }

  lemma FilesOfRoot(src: string)
    ensures Files(RootTries(src)) == CrateFiles(src, [])
  {
    OneTryFirst(Try([src + "/lib.rs", src + "/main.rs"], None), []);
    assert RootTries(src) == [Try([src + "/lib.rs", src + "/main.rs"], None)] + [];
  }

  lemma FilesOfCrate(names: seq<string>, glob: bool, src: string)
    requires IsNormal(src) && AllPathNames(names) && names != []
    ensures Files(CrateTries(After(names, glob), src)) == CrateFiles(src, names)
  {
    StripsGlob(names, glob);
    ColonsTrimmed(names);
    FilesConcat(BaseTries(After(names, glob), src, None), ModuleTries(src, Some(Low)));
    FilesOfBase(names, glob, src, None);
    FilesOfModule(src, Some(Low));
  }

  lemma CrateFilesOf(text: string, dir: string, stem: string, names: seq<string>, glob: bool, known: set<string>)
    requires IsRustFile(dir, stem) && AllPathNames(names)
    requires if names == [] && !glob then text == CRATE else CRATE_ <= text && text[|CRATE_|..] == After(names, glob)
    ensures Files(Tries(text, RustFile(dir, stem), known)) == CrateFiles(CrateSrc(dir, known), names)
  {
    var src := CrateSrc(dir, known);
    DirsOfFile(dir, stem);
    CrateSrcIsNormal(dir, known);
    FilesOfRoot(src);
    if names == [] && !glob {
      BareCrateTries(RustFile(dir, stem), known);
    } else {
      CrateRestTries(text, RustFile(dir, stem), known);
      if names == [] {
        StripsGlob(names, glob);
      } else {
        FilesOfCrate(names, glob, src);
      }
    }
  }

  /** `crate`, and `crate::` with names: under the crate's sources, and then their own module. */
  lemma CrateSearches(dir: string, stem: string, names: seq<string>, glob: bool, known: set<string>)
    requires IsRustFile(dir, stem) && AllPathNames(names)
    ensures Files(Tries(Headed("crate", names, glob), RustFile(dir, stem), known)) == CrateFiles(CrateSrc(dir, known), names)
  {
    HeadsWithColons();
    if names != [] || glob {
      HeadedAfter("crate", names, glob);
    }
    CrateFilesOf(Headed("crate", names, glob), dir, stem, names, glob, known);
  }
}
