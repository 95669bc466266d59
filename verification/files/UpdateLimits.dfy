/** Where an update keeps its promises: exactly which targets it is safe to run on. */
module UpdateLimits {
  import opened Sequences
  import opened Disks
  import opened AtomicWrites
  import opened FileSystems
  import opened UpdateRuns
  import opened UpdateFacts

  // ----- a run in which nothing fails

  ghost predicate AllWork(f: Fate) {
    forall k :: f.turns(k).Works?
  }

  predicate Writable(files: Files, path: Path) {
    path in files ==> files[path].File?
  }

  /** A disk an update can work on: the target is a file, and no name it writes is taken by anything else. */
  predicate Ready(files: Files, n: Names) {
    && n.target in files && files[n.target].File?
    && Writable(files, n.prev) && Writable(files, n.exe) && Writable(files, n.sums) && Writable(files, n.prevTemp)
  }

  function Fetched(files: Files, n: Names, release: Release): Files {
    files[n.exe := File(release.binary, PLAIN)][n.sums := File(release.sums, PLAIN)]
  }

  lemma SmoothFetch(f: Fate, files: Files, calls: nat, n: Names, release: Release)
    requires AllWork(f) && Apart(n) && Writable(files, n.exe) && Writable(files, n.sums)
    ensures FetchRun(f, files, calls, n, release) == Stage(Fetched(files, n, release), calls + 2, Done(()))
  {
  }

  lemma SmoothVerify(f: Fate, files: Files, calls: nat, n: Names, tools: Tools, release: Release)
    requires AllWork(f) && Verified(tools, release)
    requires Holds(files, n.exe, release.binary) && Holds(files, n.sums, release.sums)
    ensures VerifyRun(f, files, calls, n, tools) == Stage(files, calls + 2, Done(()))
  {
  }

  /** The entry copied from the target: empty when the copy goes onto the target itself. */
  function CopyOf(files: Files, n: Names): Entry
    requires n.target in files && files[n.target].File?
  {
    if n.target == n.prevTemp then File([], files[n.target].mode) else files[n.target]
  }

  function AfterRetain(files: Files, n: Names): Files
    requires n.target in files && files[n.target].File?
  {
    Moved(files[n.prevTemp := CopyOf(files, n)], n.prevTemp, n.prev)
  }

  lemma SmoothRetain(f: Fate, files: Files, calls: nat, n: Names)
    requires AllWork(f) && Apart(n) && Ready(files, n)
    ensures RetainRun(f, files, calls, n) == Stage(AfterRetain(files, n), calls + 4, Done(()))
  {
    assert StageRun(f, files, calls + 1, n) == Stage(AfterRetain(files, n), calls + 4, Done(()));
  }

  /** The staged binary renamed over the target once the displaced one is retained. */
  lemma MovedIntoPlace(marked: Files, n: Names, binary: Bytes)
    requires Apart(n) && Ready(marked, n) && At(marked, n.exe) == Some(File(binary, EXECUTABLE))
    ensures var kept := AfterRetain(marked, n);
            && CanRename(kept, n.exe, n.target)
            && At(Moved(kept, n.exe, n.target), n.target) == Some(File(binary, EXECUTABLE))
            && At(Moved(kept, n.exe, n.target), n.prev)
            == Some(if n.target == n.prev then File(binary, EXECUTABLE) else CopyOf(marked, n))
  {
    var kept := AfterRetain(marked, n);
    assert At(kept, n.exe) == At(marked, n.exe);
    assert At(kept, n.prev) == Some(CopyOf(marked, n));
  }

  lemma SmoothPlace(f: Fate, files: Files, calls: nat, n: Names, binary: Bytes)
    requires AllWork(f) && Apart(n) && Ready(files, n) && Holds(files, n.exe, binary)
    ensures var s, marked := PlaceRun(f, files, calls, n), WithMode(files, n.exe, EXECUTABLE);
            && s.reply.Done? && s.calls == calls + 7
            && At(s.files, n.target) == Some(File(binary, EXECUTABLE))
            && At(s.files, n.prev) == Some(if n.target == n.prev then File(binary, EXECUTABLE) else CopyOf(marked, n))
  {
    var marked := WithMode(files, n.exe, EXECUTABLE);
    assert ExecutableRun(f, files, calls, n.exe) == Stage(marked, calls + 2, Done(()));
    SmoothRetain(f, marked, calls + 2, n);
    MovedIntoPlace(marked, n, binary);
  }

  lemma {:induction false} SmoothClearing(f: Fate, files: Files, calls: nat, names: seq<Path>)
    requires AllWork(f)
    ensures Clearing(f, files, calls, names).reply.Done?
    ensures forall p :: p in names ==> p !in Clearing(f, files, calls, names).files
    decreases |names|
  {
    if names != [] {
      SmoothClearing(f, files - {names[0]}, calls + 1, names[1..]);
      ClearingOnlyRemoves(f, files - {names[0]}, calls + 1, names[1..], names[0]);
    }
  }

  lemma SmoothPlaceStaged(f: Fate, files: Files, calls: nat, n: Names, binary: Bytes)
    requires AllWork(f) && Apart(n) && Ready(files, n) && Holds(files, n.exe, binary)
    ensures var s, placed := PlaceStagedRun(f, files, calls, n), PlaceRun(f, files, calls, n);
            && s.reply.Done? && At(s.files, n.prev) == At(placed.files, n.prev)
            && (n.target in n.stale ==> n.target !in s.files)
  {
    var placed := PlaceRun(f, files, calls, n);
    SmoothPlace(f, files, calls, n, binary);
    SmoothClearing(f, placed.files, placed.calls, n.stale);
    ClearingOnlyRemoves(f, placed.files, placed.calls, n.stale, n.prev);
  }

  /** What an update that nothing disturbs leaves under the retained name. */
  function PrevAfter(files: Files, n: Names, release: Release): Entry
    requires Ready(files, n)
  {
    if n.target == n.prev || n.target == n.exe then File(release.binary, EXECUTABLE)
    else if n.target == n.sums then File(release.sums, PLAIN)
    else CopyOf(files, n)
  }

  /** An update of a verified release that nothing disturbs succeeds. */
  lemma SmoothUpdate(f: Fate, files: Files, n: Names, tools: Tools, release: Release)
    requires AllWork(f) && Apart(n) && Ready(files, n) && Verified(tools, release)
    ensures var u := UpdateRun(f, files, 0, n, tools, release);
            && u.reply.Done? && At(u.files, n.prev) == Some(PrevAfter(files, n, release))
            && (n.target in n.stale ==> n.target !in u.files)
  {
    var fetched := Fetched(files, n, release);
    SmoothFetch(f, files, 0, n, release);
    SmoothVerify(f, fetched, 2, n, tools, release);
    SmoothPlace(f, fetched, 4, n, release.binary);
    SmoothPlaceStaged(f, fetched, 4, n, release.binary);
    var r := ReplaceRun(f, files, 0, n, tools, release);
    assert r == PlaceStagedRun(f, fetched, 4, n);
    SmoothClearing(f, r.files, r.calls, [n.exe, n.sums]);
    ClearingOnlyRemoves(f, r.files, r.calls, [n.exe, n.sums], n.target);
    ClearingOnlyRemoves(f, r.files, r.calls, [n.exe, n.sums], n.prev);
  }

  // ----- a run in which one call fails

  /** Every call works but the `k`-th, which leaves nothing behind; none fails for a negative `k`. */
  function FailsAt(k: int): Fate {
    Fate((i: nat) => if i == k then Fails else Works(0), (i: nat) => None)
  }

  /** A failed first download removes the staged name. */
  lemma LostAsStagedName(files: Files, n: Names, tools: Tools, release: Release)
    requires n.target == n.exe && Writable(files, n.exe)
    ensures n.target !in UpdateRun(FailsAt(0), files, 0, n, tools, release).files
  {
    var f := FailsAt(0);
    var s := Stage(files, 1, Error);
    assert Clearing(f, files, 1, [n.exe]) == Clearing(f, files - {n.exe}, 2, [n.exe][1..]);
    assert DownloadRun(f, files, 0, release.binary, n.exe) == Stage(files - {n.exe}, 2, Error);
    ClearingOnlyRemoves(f, files - {n.exe}, 2, [n.exe, n.sums], n.target);
  }

  /** A failed second download removes the checksum name. */
  lemma LostAsChecksumName(files: Files, n: Names, tools: Tools, release: Release)
    requires Apart(n) && n.target == n.sums && Writable(files, n.exe) && Writable(files, n.sums)
    ensures n.target !in UpdateRun(FailsAt(1), files, 0, n, tools, release).files
  {
    var f, staged := FailsAt(1), files[n.exe := File(release.binary, PLAIN)];
    assert DownloadRun(f, files, 0, release.binary, n.exe) == Stage(staged, 1, Done(()));
    assert Clearing(f, staged, 2, [n.sums]) == Clearing(f, staged - {n.sums}, 3, [n.sums][1..]);
    assert DownloadRun(f, staged, 1, release.sums, n.sums) == Stage(staged - {n.sums}, 3, Error);
    ClearingOnlyRemoves(f, staged - {n.sums}, 3, [n.exe, n.sums], n.target);
  }

  lemma FetchBefore(k: int, files: Files, n: Names, release: Release)
    requires k > 1 && Apart(n) && Writable(files, n.exe) && Writable(files, n.sums)
    ensures FetchRun(FailsAt(k), files, 0, n, release) == Stage(Fetched(files, n, release), 2, Done(()))
  {
  }

  /** A failed copy onto the retained copy's temp name removes that name. */
  lemma LostAsCopyName(files: Files, n: Names, tools: Tools, release: Release)
    requires Apart(n) && n.target == n.prevTemp && Ready(files, n) && Verified(tools, release)
    ensures n.target !in UpdateRun(FailsAt(7), files, 0, n, tools, release).files
  {
    var f, fetched := FailsAt(7), Fetched(files, n, release);
    FetchBefore(7, files, n, release);
    assert VerifyRun(f, fetched, 2, n, tools) == Stage(fetched, 4, Done(()));
    var marked := WithMode(fetched, n.exe, EXECUTABLE);
    assert ExecutableRun(f, fetched, 4, n.exe) == Stage(marked, 6, Done(()));
    FailedCopyRemoves(marked, n);
    var r := RetainRun(f, marked, 6, n);
    assert PlaceRun(f, fetched, 4, n) == r;
    ClearingOnlyRemoves(f, r.files, r.calls, [n.exe], n.target);
    var s := PlaceStagedRun(f, fetched, 4, n);
    assert ReplaceRun(f, files, 0, n, tools, release) == s;
    ClearingOnlyRemoves(f, s.files, s.calls, [n.exe, n.sums], n.target);
  }

  lemma FailedCopyRemoves(files: Files, n: Names)
    requires n.target == n.prevTemp && n.target in files && files[n.target].File?
    ensures RetainRun(FailsAt(7), files, 6, n) == Stage(files - {n.target}, 9, Error)
  {
    var f := FailsAt(7);
    assert StageRun(f, files, 7, n) == Stage(files, 8, Error);
    assert Clearing(f, files, 8, [n.prevTemp]) == Clearing(f, files - {n.prevTemp}, 9, [n.prevTemp][1..]);
  }

  // ----- which targets are safe

  /** The target is there, as it was or as the new binary. */
  predicate TargetComplete(before: Files, after: Files, n: Names, release: Release) {
    At(after, n.target) == At(before, n.target) || At(after, n.target) == Some(File(release.binary, EXECUTABLE))
  }

  /** A run that loses a target the flow clears away. */
  lemma ScratchIsLost(files: Files, n: Names, tools: Tools, release: Release) returns (f: Fate)
    requires Apart(n) && Ready(files, n) && Verified(tools, release) && IsScratch(n, n.target)
    ensures n.target !in UpdateRun(f, files, 0, n, tools, release).files
  {
    if n.target == n.exe {
      f := FailsAt(0);
      LostAsStagedName(files, n, tools, release);
    } else if n.target == n.sums {
      f := FailsAt(1);
      LostAsChecksumName(files, n, tools, release);
    } else if n.target == n.prevTemp {
      f := FailsAt(7);
      LostAsCopyName(files, n, tools, release);
    } else {
      f := FailsAt(-1);
      SmoothUpdate(f, files, n, tools, release);
    }
  }

  /**
   * The target is complete after every run of an update exactly when it is none of the names
   * the flow clears away: its temps, and the superseded files it removes after success.
   */
  lemma TargetSafeIff(files: Files, n: Names, tools: Tools, release: Release)
    requires Apart(n) && Ready(files, n) && Verified(tools, release)
    ensures (forall f :: TargetComplete(files, UpdateRun(f, files, 0, n, tools, release).files, n, release))
            <==> !IsScratch(n, n.target)
  {
    if IsScratch(n, n.target) {
      var f := ScratchIsLost(files, n, tools, release);
      assert !TargetComplete(files, UpdateRun(f, files, 0, n, tools, release).files, n, release);
    } else {
      forall f ensures TargetComplete(files, UpdateRun(f, files, 0, n, tools, release).files, n, release) {
        var placed := UpdateKeepsBinaries(f, files, 0, n, tools, release);
      }
    }
  }

  /** A target named like a superseded file is gone after the very update that succeeds on it. */
  lemma SupersededNameIsLost(f: Fate, files: Files, n: Names, tools: Tools, release: Release)
    requires AllWork(f) && Apart(n) && Ready(files, n) && Verified(tools, release) && n.target in n.stale
    ensures var u := UpdateRun(f, files, 0, n, tools, release);
            u.reply.Done? && n.target !in u.files
  {
    SmoothUpdate(f, files, n, tools, release);
  }

  /** A successful update retains exactly the binary it displaced. */
  predicate DisplacedRetained(before: Files, u: Stage, n: Names) {
    u.reply.Done? ==> At(u.files, n.prev) == At(before, n.target)
  }

  /** An installed binary that differs from every file the update makes. */
  predicate Installed(files: Files, n: Names, release: Release) {
    && n.target in files && files[n.target].File?
    && files[n.target].bytes != [] && files[n.target].bytes != release.binary && files[n.target].bytes != release.sums
  }

  /**
   * Every successful update retains exactly the displaced binary exactly when the target is
   * neither the retained name itself nor one of the flow's temps.
   */
  lemma PrevDisplacedIff(files: Files, n: Names, tools: Tools, release: Release)
    requires Apart(n) && Ready(files, n) && Verified(tools, release) && Installed(files, n, release)
    ensures (forall f :: DisplacedRetained(files, UpdateRun(f, files, 0, n, tools, release), n))
            <==> n.target != n.prev && !IsTemp(n, n.target)
  {
    if n.target != n.prev && !IsTemp(n, n.target) {
      forall f ensures DisplacedRetained(files, UpdateRun(f, files, 0, n, tools, release), n) {
        var placed := UpdateKeepsBinaries(f, files, 0, n, tools, release);
      }
    } else {
      var f := FailsAt(-1);
      SmoothUpdate(f, files, n, tools, release);
      assert !DisplacedRetained(files, UpdateRun(f, files, 0, n, tools, release), n);
    }
  }

  /** A target that is the retained name loses the binary it displaces to the new one. */
  lemma RetainedNameIsOverwritten(f: Fate, files: Files, n: Names, tools: Tools, release: Release)
    requires AllWork(f) && Apart(n) && Ready(files, n) && Verified(tools, release) && n.target == n.prev
    ensures var u := UpdateRun(f, files, 0, n, tools, release);
            u.reply.Done? && At(u.files, n.prev) == Some(File(release.binary, EXECUTABLE))
  {
    SmoothUpdate(f, files, n, tools, release);
  }
}
