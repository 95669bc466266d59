/** What every update, and every history of updates, leaves of the binaries. */
module UpdateFacts {
  import opened Sequences
  import opened Disks
  import opened FileSystems
  import opened Checksums
  import opened UpdateRuns

  /** The flow's own names differ from each other. The target may be any of them. */
  predicate Apart(n: Names) {
    && n.prev != n.exe && n.prev != n.sums && n.prev != n.prevTemp
    && n.exe != n.sums && n.exe != n.prevTemp && n.sums != n.prevTemp
    && n.prev !in n.stale && n.exe !in n.stale && n.sums !in n.stale && n.prevTemp !in n.stale
  }

  /** The names an update of `target` in `dir` makes up; `bin` is the stable install directory, if known. */
  function NamesFor(target: Path, dir: Path, bin: Option<Path>, pid: string): Names {
    Names(
      target,
      dir + "/slugaudit.prev",
      dir + "/.slugaudit-update-" + pid + "-" + ASSET,
      dir + "/" + ASSET + "-" + pid + "-SHA256SUMS",
      dir + "/.slugaudit.prev." + pid + ".tmp",
      [dir + "/slugaudit-mcp"] + if bin.Some? then [bin.value + "/slugaudit-mcp"] else [])
  }

  /** The characters that tell the flow's names in one directory apart, and from those in any other. */
  predicate Told(path: Path, i: nat, first: char, tenth: char, eleventh: char, last: char) {
    && |path| > i + 12 && path[i + 1] == first && path[i + 10] == tenth && path[i + 11] == eleventh
    && path[|path| - 1] == last
  }

  lemma StagedNameTold(n: Names, target: Path, dir: Path, bin: Option<Path>, pid: string)
    requires n == NamesFor(target, dir, bin, pid)
    ensures Told(n.exe, |dir|, '.', 't', '-', 'u') && Told(n.sums, |dir|, 's', '-', 'x', 'S')
  {
    assert ASSET[|ASSET| - 1] == 'u' && ASSET[9] == '-' && ASSET[10] == 'x';
  }

  lemma RetainedNameTold(n: Names, target: Path, dir: Path, bin: Option<Path>, pid: string)
    requires n == NamesFor(target, dir, bin, pid)
    ensures Told(n.prev, |dir|, 's', '.', 'p', 'v') && Told(n.prevTemp, |dir|, '.', 't', '.', 'p')
    ensures n.prevTemp[|n.prevTemp| - 2] == 'm'
  {
  }

  lemma SupersededNamesTold(n: Names, target: Path, dir: Path, bin: Option<Path>, pid: string)
    requires n == NamesFor(target, dir, bin, pid)
    ensures forall p :: p in n.stale ==> |p| > 1 && p[|p| - 1] == 'p' && p[|p| - 2] == 'c'
  {
  }

  lemma ApartIfTold(n: Names, i: nat)
    requires Told(n.exe, i, '.', 't', '-', 'u') && Told(n.sums, i, 's', '-', 'x', 'S')
    requires Told(n.prev, i, 's', '.', 'p', 'v') && Told(n.prevTemp, i, '.', 't', '.', 'p')
    requires n.prevTemp[|n.prevTemp| - 2] == 'm'
    requires forall p :: p in n.stale ==> |p| > 1 && p[|p| - 1] == 'p' && p[|p| - 2] == 'c'
    ensures Apart(n)
  {
  }

  /** They differ from each other whatever the directories and the process id are. */
  lemma OwnNamesApart(target: Path, dir: Path, bin: Option<Path>, pid: string)
    ensures Apart(NamesFor(target, dir, bin, pid))
  {
    var n := NamesFor(target, dir, bin, pid);
    StagedNameTold(n, target, dir, bin, pid);
    RetainedNameTold(n, target, dir, bin, pid);
    SupersededNamesTold(n, target, dir, bin, pid);
    ApartIfTold(n, |dir|);
  }

  predicate IsTemp(n: Names, path: Path) {
    path == n.exe || path == n.sums || path == n.prevTemp
  }

  /** A name the flow clears away: one of its temps, or a superseded file. */
  predicate IsScratch(n: Names, path: Path) {
    IsTemp(n, path) || path in n.stale
  }

  function At(files: Files, path: Path): Option<Entry> {
    if path in files then Some(files[path]) else None
  }

  // ----- removals

  /** Removing only removes, and only the names given. */
  lemma {:induction false} ClearingOnlyRemoves(f: Fate, files: Files, calls: nat, names: seq<Path>, path: Path)
    ensures var s := Clearing(f, files, calls, names);
            && (path !in names ==> At(s.files, path) == At(files, path))
            && (At(s.files, path) == At(files, path) || At(s.files, path) == None)
            && !s.reply.Error?
    decreases |names|
  {
    if names != [] && !f.turns(calls).Dies? {
      ClearingOnlyRemoves(f, if f.turns(calls).Works? then files - {names[0]} else files, calls + 1, names[1..], path);
    }
  }

  /** Unless the process dies, each name whose removal worked is gone. */
  lemma {:induction false} ClearingClears(f: Fate, files: Files, calls: nat, names: seq<Path>, i: nat)
    requires i < |names| && !Clearing(f, files, calls, names).reply.Gone?
    ensures var s := Clearing(f, files, calls, names);
            && s.calls == calls + |names|
            && (f.turns(calls + i).Works? ==> names[i] !in s.files)
    decreases |names|
  {
    var rest := if f.turns(calls).Works? then files - {names[0]} else files;
    ClearingCounts(f, rest, calls + 1, names[1..]);
    if i > 0 {
      ClearingClears(f, rest, calls + 1, names[1..], i - 1);
    } else {
      ClearingOnlyRemoves(f, rest, calls + 1, names[1..], names[0]);
    }
  }

  lemma {:induction false} ClearingCounts(f: Fate, files: Files, calls: nat, names: seq<Path>)
    ensures !Clearing(f, files, calls, names).reply.Gone? ==> Clearing(f, files, calls, names).calls == calls + |names|
    decreases |names|
  {
    if names != [] && !f.turns(calls).Dies? {
      ClearingCounts(f, if f.turns(calls).Works? then files - {names[0]} else files, calls + 1, names[1..]);
    }
  }

  /** A failed download leaves nothing, unless its removal failed too. */
  lemma FailedDownloadLeavesNothing(f: Fate, files: Files, calls: nat, body: Bytes, dest: Path)
    requires DownloadRun(f, files, calls, body, dest).reply.Error?
    ensures f.turns(calls + 1).Works? ==> dest !in DownloadRun(f, files, calls, body, dest).files
  {
    var (written, reply) := Overwritten(files, dest, body, PLAIN, f.turns(calls), f.torn(calls));
    ClearingClears(f, written, calls + 1, [dest], 0);
  }

  /** A failed retention leaves no staged copy, unless its removal failed too. */
  lemma FailedRetentionLeavesNothing(f: Fate, files: Files, calls: nat, n: Names)
    requires RetainRun(f, files, calls, n).reply.Error?
    ensures var s := RetainRun(f, files, calls, n);
            s.calls > 0 && (f.turns(s.calls - 1).Works? ==> n.prevTemp !in s.files)
  {
    var looked := IdleRun(f, files, calls);
    if looked.reply.Done? && n.target in files {
      var staged := StageRun(f, files, looked.calls, n);
      ClearingClears(f, staged.files, staged.calls, [n.prevTemp], 0);
    }
  }

  /** A failed placement leaves no staged binary, and a successful one no superseded file, unless a removal failed. */
  lemma PlacementClears(f: Fate, files: Files, calls: nat, n: Names, i: nat)
    ensures var s := PlaceStagedRun(f, files, calls, n);
            && (s.reply.Error? ==> s.calls > 0 && (f.turns(s.calls - 1).Works? ==> n.exe !in s.files))
            && (s.reply.Done? && i < |n.stale| ==>
                  s.calls >= |n.stale| && (f.turns(s.calls - |n.stale| + i).Works? ==> n.stale[i] !in s.files))
  {
    var placed := PlaceRun(f, files, calls, n);
    var s := PlaceStagedRun(f, files, calls, n);
    if s.reply.Error? {
      ClearingOnlyRemoves(f, placed.files, placed.calls, n.stale, n.exe);
      ClearingClears(f, placed.files, placed.calls, [n.exe], 0);
    }
    if s.reply.Done? && i < |n.stale| {
      ClearingClears(f, placed.files, placed.calls, n.stale, i);
    }
  }

  lemma ClearedPair(f: Fate, s: Stage, a: Path, b: Path)
    requires !Cleared(f, s, [a, b]).reply.Gone?
    ensures var t := Cleared(f, s, [a, b]);
            && t.calls >= 2
            && (f.turns(t.calls - 2).Works? ==> a !in t.files)
            && (f.turns(t.calls - 1).Works? ==> b !in t.files)
  {
    ClearingClears(f, s.files, s.calls, [a, b], 0);
    ClearingClears(f, s.files, s.calls, [a, b], 1);
  }

  /** However an update ends short of a death, its two temps are gone unless their removal failed. */
  lemma UpdateCleansUp(f: Fate, files: Files, calls: nat, n: Names, tools: Tools, release: Release)
    requires !UpdateRun(f, files, calls, n, tools, release).reply.Gone?
    ensures var u := UpdateRun(f, files, calls, n, tools, release);
            && u.calls >= 2
            && (f.turns(u.calls - 2).Works? ==> n.exe !in u.files)
            && (f.turns(u.calls - 1).Works? ==> n.sums !in u.files)
  {
    var r := ReplaceRun(f, files, calls, n, tools, release);
    ClearedPair(f, r, n.exe, n.sums);
  }

  // ----- one update

  /** The retained name was left alone, or given exactly what the target held. */
  predicate Retained(before: Files, after: Files, n: Names) {
    if n.target in before then At(after, n.prev) == At(before, n.target) else At(after, n.prev) == At(before, n.prev)
  }

  predicate PrevOk(before: Files, after: Files, n: Names) {
    At(after, n.prev) == At(before, n.prev) || Retained(before, after, n)
  }

  /** Target and retained binary after a part of the flow that `placed` the new binary, or did not. */
  predicate Kept(before: Files, after: Files, n: Names, binary: Bytes, placed: bool) {
    && At(after, n.target) == (if placed then Some(File(binary, EXECUTABLE)) else At(before, n.target))
    && (n.target != n.prev ==> if placed then Retained(before, after, n) else PrevOk(before, after, n))
  }

  lemma StageKeeps(f: Fate, files: Files, calls: nat, n: Names)
    requires Apart(n) && !IsTemp(n, n.target) && n.target in files
    ensures var s := StageRun(f, files, calls, n);
            && At(s.files, n.target) == At(files, n.target) && At(s.files, n.exe) == At(files, n.exe)
            && At(s.files, n.prev) == At(files, if s.reply.Done? then n.target else n.prev)
  {
  }

  lemma RetainKeeps(f: Fate, files: Files, calls: nat, n: Names)
    requires Apart(n) && !IsTemp(n, n.target)
    ensures var s := RetainRun(f, files, calls, n);
            && At(s.files, n.target) == At(files, n.target) && At(s.files, n.exe) == At(files, n.exe)
            && (if s.reply.Done? then Retained(files, s.files, n) else PrevOk(files, s.files, n))
  {
    var looked := IdleRun(f, files, calls);
    if looked.reply.Done? && n.target in files {
      StageKeeps(f, files, looked.calls, n);
      var staged := StageRun(f, files, looked.calls, n);
      ClearingOnlyRemoves(f, staged.files, staged.calls, [n.prevTemp], n.target);
      ClearingOnlyRemoves(f, staged.files, staged.calls, [n.prevTemp], n.exe);
      ClearingOnlyRemoves(f, staged.files, staged.calls, [n.prevTemp], n.prev);
    }
  }

  /** The staged binary is a file with the binary's bytes. */
  predicate Holds(files: Files, path: Path, bytes: Bytes) {
    path in files && files[path].File? && files[path].bytes == bytes
  }

  lemma PlaceKeeps(f: Fate, files: Files, calls: nat, n: Names, binary: Bytes)
    requires Apart(n) && !IsTemp(n, n.target) && Holds(files, n.exe, binary)
    ensures var s := PlaceRun(f, files, calls, n);
            Kept(files, s.files, n, binary, s.reply.Done?)
  {
    var marked := ExecutableRun(f, files, calls, n.exe);
    if marked.reply.Done? {
      RetainKeeps(f, marked.files, marked.calls, n);
    }
  }

  lemma PlaceStagedKeeps(f: Fate, files: Files, calls: nat, n: Names, binary: Bytes)
    requires Apart(n) && !IsTemp(n, n.target) && Holds(files, n.exe, binary)
    ensures var s, placed := PlaceStagedRun(f, files, calls, n), PlaceRun(f, files, calls, n).reply.Done?;
            && (n.target !in n.stale ==> At(s.files, n.target) == if placed then Some(File(binary, EXECUTABLE)) else At(files, n.target))
            && (n.target != n.prev ==> if placed then Retained(files, s.files, n) else PrevOk(files, s.files, n))
            && (s.reply.Done? ==> placed) && (s.reply.Error? ==> !placed)
  {
    var placed := PlaceRun(f, files, calls, n);
    PlaceKeeps(f, files, calls, n, binary);
    if !placed.reply.Gone? {
      var names := if placed.reply.Done? then n.stale else [n.exe];
      ClearingOnlyRemoves(f, placed.files, placed.calls, names, n.target);
      ClearingOnlyRemoves(f, placed.files, placed.calls, names, n.prev);
    }
  }

  lemma DownloadTouchesOnly(f: Fate, files: Files, calls: nat, body: Bytes, dest: Path, path: Path)
    ensures path != dest ==> At(DownloadRun(f, files, calls, body, dest).files, path) == At(files, path)
    ensures DownloadRun(f, files, calls, body, dest).reply.Done? ==>
              Holds(DownloadRun(f, files, calls, body, dest).files, dest, body)
  {
    var (written, reply) := Overwritten(files, dest, body, PLAIN, f.turns(calls), f.torn(calls));
    ClearingOnlyRemoves(f, written, calls + 1, [dest], path);
  }

  lemma FetchKeeps(f: Fate, files: Files, calls: nat, n: Names, release: Release, path: Path)
    requires Apart(n)
    ensures var s := FetchRun(f, files, calls, n, release);
            && (!IsTemp(n, path) ==> At(s.files, path) == At(files, path))
            && (s.reply.Done? ==> Holds(s.files, n.exe, release.binary) && Holds(s.files, n.sums, release.sums))
  {
    var binary := DownloadRun(f, files, calls, release.binary, n.exe);
    DownloadTouchesOnly(f, files, calls, release.binary, n.exe, path);
    DownloadTouchesOnly(f, files, calls, release.binary, n.exe, n.exe);
    DownloadTouchesOnly(f, binary.files, binary.calls, release.sums, n.sums, path);
    DownloadTouchesOnly(f, binary.files, binary.calls, release.sums, n.sums, n.exe);
  }

  /** The check changes nothing, and passes only a verified release. */
  lemma VerifyKeeps(f: Fate, files: Files, calls: nat, n: Names, tools: Tools, release: Release)
    requires Holds(files, n.exe, release.binary) && Holds(files, n.sums, release.sums)
    ensures var s := VerifyRun(f, files, calls, n, tools);
            s.files == files && (s.reply.Done? ==> Verified(tools, release))
  {
  }

  /** What one update did to target and retained binary, `placed` being whether it put the new one there. */
  predicate UpdateOk(before: Files, u: Stage, n: Names, tools: Tools, release: Release, placed: bool) {
    && (placed ==> Verified(tools, release))
    && (n.target !in n.stale ==>
          At(u.files, n.target) == if placed then Some(File(release.binary, EXECUTABLE)) else At(before, n.target))
    && (n.target != n.prev ==> if placed then Retained(before, u.files, n) else PrevOk(before, u.files, n))
    && (u.reply.Done? ==> placed) && (u.reply.Error? ==> !placed)
  }

  /** Two disks with the same target and the same retained binary. */
  predicate SameBinaries(a: Files, b: Files, n: Names) {
    At(a, n.target) == At(b, n.target) && At(a, n.prev) == At(b, n.prev)
  }

  lemma ReplaceKeeps(f: Fate, files: Files, calls: nat, n: Names, tools: Tools, release: Release) returns (placed: bool)
    requires Apart(n) && !IsTemp(n, n.target)
    ensures UpdateOk(files, ReplaceRun(f, files, calls, n, tools, release), n, tools, release, placed)
  {
    placed := false;
    var fetched := FetchRun(f, files, calls, n, release);
    FetchKeeps(f, files, calls, n, release, n.target);
    FetchKeeps(f, files, calls, n, release, n.prev);
    assert SameBinaries(files, fetched.files, n);
    if fetched.reply.Done? {
      VerifyKeeps(f, fetched.files, fetched.calls, n, tools, release);
      var checked := VerifyRun(f, fetched.files, fetched.calls, n, tools);
      if checked.reply.Done? {
        placed := PlaceRun(f, checked.files, checked.calls, n).reply.Done?;
        PlaceStagedKeeps(f, checked.files, checked.calls, n, release.binary);
      }
    }
  }

  /**
   * One update, wherever its calls fail or its process dies. A target that is none of the
   * flow's temps or superseded files is as it was, or is the verified binary; it is that
   * binary after success and as it was after failure. A target that is not the retained name
   * has its retained binary as it was or exactly the displaced one, and after success the latter.
   */
  lemma UpdateKeepsBinaries(f: Fate, files: Files, calls: nat, n: Names, tools: Tools, release: Release) returns (placed: bool)
    requires Apart(n) && !IsTemp(n, n.target)
    ensures UpdateOk(files, UpdateRun(f, files, calls, n, tools, release), n, tools, release, placed)
  {
    placed := ReplaceKeeps(f, files, calls, n, tools, release);
    var r := ReplaceRun(f, files, calls, n, tools, release);
    ClearingOnlyRemoves(f, r.files, r.calls, [n.exe, n.sums], n.target);
    ClearingOnlyRemoves(f, r.files, r.calls, [n.exe, n.sums], n.prev);
  }

  // ----- what an update leaves alone

  /** A name the flow has nothing to do with. */
  predicate IsForeign(n: Names, path: Path) {
    !IsScratch(n, path) && path != n.target && path != n.prev
  }

  lemma PlaceLeavesAlone(f: Fate, files: Files, calls: nat, n: Names, path: Path)
    requires IsForeign(n, path)
    ensures At(PlaceRun(f, files, calls, n).files, path) == At(files, path)
  {
    var marked := ExecutableRun(f, files, calls, n.exe);
    var looked := IdleRun(f, marked.files, marked.calls);
    if marked.reply.Done? && looked.reply.Done? && n.target in marked.files {
      var staged := StageRun(f, marked.files, looked.calls, n);
      ClearingOnlyRemoves(f, staged.files, staged.calls, [n.prevTemp], path);
    }
  }

  lemma PlaceStagedLeavesAlone(f: Fate, files: Files, calls: nat, n: Names, path: Path)
    requires IsForeign(n, path)
    ensures At(PlaceStagedRun(f, files, calls, n).files, path) == At(files, path)
  {
    var placed := PlaceRun(f, files, calls, n);
    PlaceLeavesAlone(f, files, calls, n, path);
    ClearingOnlyRemoves(f, placed.files, placed.calls, n.stale, path);
    ClearingOnlyRemoves(f, placed.files, placed.calls, [n.exe], path);
  }

  lemma ReplaceLeavesAlone(f: Fate, files: Files, calls: nat, n: Names, tools: Tools, release: Release, path: Path)
    requires Apart(n) && IsForeign(n, path)
    ensures At(ReplaceRun(f, files, calls, n, tools, release).files, path) == At(files, path)
  {
    var fetched := FetchRun(f, files, calls, n, release);
    FetchKeeps(f, files, calls, n, release, path);
    if fetched.reply.Done? {
      VerifyKeeps(f, fetched.files, fetched.calls, n, tools, release);
      var checked := VerifyRun(f, fetched.files, fetched.calls, n, tools);
      PlaceStagedLeavesAlone(f, checked.files, checked.calls, n, path);
    }
  }

  /** An update touches no name but the flow's own, the target and the retained one. */
  lemma UpdateLeavesAlone(f: Fate, files: Files, calls: nat, n: Names, tools: Tools, release: Release, path: Path)
    requires Apart(n) && IsForeign(n, path)
    ensures At(UpdateRun(f, files, calls, n, tools, release).files, path) == At(files, path)
  {
    var r := ReplaceRun(f, files, calls, n, tools, release);
    ReplaceLeavesAlone(f, files, calls, n, tools, release, path);
    ClearingOnlyRemoves(f, r.files, r.calls, [n.exe, n.sums], path);
  }

  // ----- any number of updates

  /** One attempt by one process: its own temp names, what it was given, and how its calls go. */
  datatype Attempt = Attempt(names: Names, tools: Tools, release: Release, fate: Fate)

  function AttemptRun(files: Files, a: Attempt): Files {
    UpdateRun(a.fate, files, 0, a.names, a.tools, a.release).files
  }

  /** The disk after the attempts, one after the other. */
  function History(files: Files, attempts: seq<Attempt>): Files {
    if attempts == [] then files
    else AttemptRun(History(files, attempts[..|attempts| - 1]), attempts[|attempts| - 1])
  }

  /** Attempts on one target, which is none of the names they clear away. */
  predicate AllOn(target: Path, prev: Path, attempts: seq<Attempt>) {
    forall k :: 0 <= k < |attempts| ==>
      var n := attempts[k].names;
      n.target == target && n.prev == prev && Apart(n) && !IsScratch(n, target)
  }

  /** What the target was at the start, or a verified binary of one of the attempts. */
  predicate IsComplete(first: Option<Entry>, attempts: seq<Attempt>, entry: Option<Entry>) {
    || entry == first
    || exists k :: 0 <= k < |attempts| && entry == Some(File(attempts[k].release.binary, EXECUTABLE))
                   && Verified(attempts[k].tools, attempts[k].release)
  }

  /** Target and retained binary after some attempts, neither of them a mix or a part. */
  predicate AllComplete(target: Path, prev: Path, first: Files, attempts: seq<Attempt>, disk: Files) {
    && IsComplete(At(first, target), attempts, At(disk, target))
    && (At(disk, prev) == At(first, prev) || IsComplete(At(first, target), attempts, At(disk, prev)))
  }

  /**
   * After any number of updates, each of which may have failed or died at any call, the
   * target is the first binary or one that was verified, and the retained binary is the one
   * there at the start or a complete former target.
   */
  lemma {:induction false} TargetAlwaysComplete(target: Path, prev: Path, files: Files, attempts: seq<Attempt>)
    requires AllOn(target, prev, attempts)
    ensures AllComplete(target, prev, files, attempts, History(files, attempts))
    decreases |attempts|
  {
    if attempts != [] {
      var former, a := attempts[..|attempts| - 1], attempts[|attempts| - 1];
      TargetAlwaysComplete(target, prev, files, former);
      var before := History(files, former);
      var placed := UpdateKeepsBinaries(a.fate, before, 0, a.names, a.tools, a.release);
      AttemptKeepsComplete(target, prev, files, attempts, before, placed);
    }
  }

  lemma AttemptKeepsComplete(
    target: Path, prev: Path, first: Files, attempts: seq<Attempt>, before: Files, placed: bool)
    requires attempts != [] && AllOn(target, prev, attempts)
    requires AllComplete(target, prev, first, attempts[..|attempts| - 1], before)
    requires var a := attempts[|attempts| - 1];
             UpdateOk(before, UpdateRun(a.fate, before, 0, a.names, a.tools, a.release), a.names, a.tools, a.release, placed)
    ensures AllComplete(target, prev, first, attempts, AttemptRun(before, attempts[|attempts| - 1]))
  {
    var a := attempts[|attempts| - 1];
    var after := AttemptRun(before, a);
    StillComplete(At(first, target), attempts, At(before, target));
    if At(before, prev) != At(first, prev) {
      StillComplete(At(first, target), attempts, At(before, prev));
    }
    assert placed ==> At(after, target) == Some(File(a.release.binary, EXECUTABLE));
    assert target == prev || At(after, prev) == At(before, prev) || At(after, prev) == At(before, target);
  }

  lemma StillComplete(first: Option<Entry>, attempts: seq<Attempt>, entry: Option<Entry>)
    requires attempts != [] && IsComplete(first, attempts[..|attempts| - 1], entry)
    ensures IsComplete(first, attempts, entry)
  {
    if entry != first {
      var former := attempts[..|attempts| - 1];
      var k :| 0 <= k < |former| && entry == Some(File(former[k].release.binary, EXECUTABLE))
               && Verified(former[k].tools, former[k].release);
      assert attempts[k] == former[k];
    }
  }
}
