/** The config replacement as one process runs it, call by call. */
module ConfigWriter {
  import opened Sequences
  import opened Disks
  import opened AtomicWrites
  import opened FileSystems

  /** The state after `n` calls of a writer that runs alone, the first of them on turn `from`. */
  function Solo(files: Files, path: Path, w: Writer, turns: nat -> Turn, from: nat, n: nat): (Files, Writer) {
    if n == 0 then (files, w)
    else
      var (before, v) := Solo(files, path, w, turns, from, n - 1);
      var (after, pc) := Call(before, path, v, turns(from + n - 1));
      (after, v.(pc := pc))
  }

  datatype Outcome = Replaced | Unchanged | ProcessDied

  /** How the call's result reads off where its writer ended. */
  predicate Ends(outcome: Outcome, pc: Pc) {
    match outcome
    case Replaced => pc.Succeeded?
    case Unchanged => pc.Failed?
    case ProcessDied => pc.Dead?
  }

  /** A writer's progress: the disk is where its calls so far took it. */
  ghost predicate At(fs: FileSystem, files0: Files, path: Path, w0: Writer, from: nat, pc: Pc)
    reads fs
  {
    && from <= fs.calls
    && Solo(files0, path, w0, fs.turns, from, fs.calls - from) == (fs.files, w0.(pc := pc))
  }

  /** A write through `path` can work: it leads somewhere that is no directory, and the temp name is free. */
  predicate CanReplace(files: Files, path: Path, temp: Path) {
    && Destination(files, path).Some? && temp !in files
    && temp != Destination(files, path).value
    && NoLink(files, Destination(files, path).value)
    && !(Destination(files, path).value in files && files[Destination(files, path).value].Directory?)
  }

  predicate NoLink(files: Files, path: Path) {
    path in files ==> !files[path].Link?
  }

  /** The temp is still there, and what may be renamed over is as it was. */
  predicate Untouched(before: Files, after: Files, temp: Path, dest: Path) {
    (temp in before ==> temp in after) && (temp != dest ==> SameAt(after, before, dest))
  }

  /**
   * Replaces the file reached through `path`: a temp beside it, its mode, its bytes, a sync,
   * and one rename. Every call is a call of the protocol, in its order.
   */
  method WriteAtomicWith(fs: FileSystem, path: Path, content: Bytes, temp: Path) returns (outcome: Outcome, ghost end: Pc)
    modifies fs
    ensures At(fs, old(fs.files), path, Writer(content, temp, Resolving), old(fs.calls), end)
    ensures Over(end) && Ends(outcome, end)
    ensures fs.AllWork() && CanReplace(old(fs.files), path, temp) ==> outcome.Replaced?
  {
    ghost var files0, w0, from := fs.files, Writer(content, temp, Resolving), fs.calls;
    var dest := fs.Resolve(path);
    match dest {
      case Gone => return ProcessDied, Dead(false);
      case Error => return Unchanged, Failed(false, false);
      case Done(_) =>
    }
    assert At(fs, files0, path, w0, from, Opening(dest.value));
    var created := fs.CreateNew(temp);
    match created {
      case Gone => return ProcessDied, Dead(false);
      case Error => return Unchanged, Failed(false, false);
      case Done(_) =>
    }
    assert At(fs, files0, path, w0, from, ReadingMode(dest.value));
    outcome, end := PreserveMode(fs, dest.value, content, temp, path, files0, w0, from);
    if outcome.Replaced? {
      outcome, end := WriteContent(fs, dest.value, content, temp, path, files0, w0, from);
      if outcome.Replaced? {
        outcome, end := Commit(fs, dest.value, temp, path, files0, w0, from);
      }
    }
  }

  /** The temp takes the mode of the file it is to replace; for a new file it keeps its own. */
  method PreserveMode(
    fs: FileSystem, dest: Path, content: Bytes, temp: Path,
    ghost path: Path, ghost files0: Files, ghost w0: Writer, ghost from: nat)
    returns (outcome: Outcome, ghost end: Pc)
    requires w0 == Writer(content, temp, Resolving) && At(fs, files0, path, w0, from, ReadingMode(dest))
    modifies fs
    ensures At(fs, files0, path, w0, from, end)
    ensures if outcome.Replaced? then end == FirstWrite(dest, content) else Over(end) && Ends(outcome, end)
    ensures fs.AllWork() && NoLink(old(fs.files), dest) ==> outcome.Replaced?
    ensures outcome.Replaced? ==> Untouched(old(fs.files), fs.files, temp, dest)
  {
    var mode := fs.Metadata(dest);
    match mode {
      case Gone => return ProcessDied, Dead(false);
      case Error => outcome, end := RemoveAbandonedTemp(fs, temp, path, files0, w0, from);
      case Done(None) => return Replaced, FirstWrite(dest, content);
      case Done(Some(bits)) => outcome, end := TakeMode(fs, dest, bits, content, temp, path, files0, w0, from);
    }
  }

  method TakeMode(
    fs: FileSystem, dest: Path, mode: nat, content: Bytes, temp: Path,
    ghost path: Path, ghost files0: Files, ghost w0: Writer, ghost from: nat)
    returns (outcome: Outcome, ghost end: Pc)
    requires w0 == Writer(content, temp, Resolving) && At(fs, files0, path, w0, from, SettingMode(dest, mode))
    modifies fs
    ensures At(fs, files0, path, w0, from, end)
    ensures if outcome.Replaced? then end == FirstWrite(dest, content) else Over(end) && Ends(outcome, end)
    ensures fs.AllWork() ==> outcome.Replaced?
    ensures outcome.Replaced? ==> Untouched(old(fs.files), fs.files, temp, dest)
  {
    var changed := fs.SetMode(temp, mode);
    match changed {
      case Gone => return ProcessDied, Dead(false);
      case Error => outcome, end := RemoveAbandonedTemp(fs, temp, path, files0, w0, from);
      case Done(_) => return Replaced, FirstWrite(dest, content);
    }
  }

  /** Where a writer stands once `done` bytes are written. */
  function Written(dest: Path, content: Bytes, done: nat): Pc {
    if done == |content| then Syncing(dest) else Writing(dest, done)
  }

  method WriteContent(
    fs: FileSystem, dest: Path, content: Bytes, temp: Path,
    ghost path: Path, ghost files0: Files, ghost w0: Writer, ghost from: nat)
    returns (outcome: Outcome, ghost end: Pc)
    requires w0 == Writer(content, temp, Resolving) && At(fs, files0, path, w0, from, FirstWrite(dest, content))
    modifies fs
    ensures At(fs, files0, path, w0, from, end)
    ensures if outcome.Replaced? then end == Syncing(dest) else Over(end) && Ends(outcome, end)
    ensures fs.AllWork() ==> outcome.Replaced?
    ensures outcome.Replaced? ==> Untouched(old(fs.files), fs.files, temp, dest)
  {
    var done := 0;
    while done < |content|
      invariant done <= |content| && At(fs, files0, path, w0, from, Written(dest, content, done))
      invariant Untouched(old(fs.files), fs.files, temp, dest)
    {
      outcome, done, end := WriteSome(fs, dest, content, temp, done, path, files0, w0, from);
      if !outcome.Replaced? {
        return;
      }
    }
    return Replaced, Syncing(dest);
  }

  /** One write call: at least one more byte, or the end of the attempt. */
  method WriteSome(
    fs: FileSystem, dest: Path, content: Bytes, temp: Path, done: nat,
    ghost path: Path, ghost files0: Files, ghost w0: Writer, ghost from: nat)
    returns (outcome: Outcome, more: nat, ghost end: Pc)
    requires w0 == Writer(content, temp, Resolving) && done < |content|
    requires At(fs, files0, path, w0, from, Writing(dest, done))
    modifies fs
    ensures At(fs, files0, path, w0, from, end)
    ensures if outcome.Replaced? then done < more <= |content| && end == Written(dest, content, more)
            else Over(end) && Ends(outcome, end)
    ensures fs.AllWork() ==> outcome.Replaced?
    ensures outcome.Replaced? ==> Untouched(old(fs.files), fs.files, temp, dest)
  {
    more := done;
    var taken := fs.Write(temp, content[done..]);
    match taken {
      case Gone => return ProcessDied, more, Dead(false);
      case Error => outcome, end := RemoveAbandonedTemp(fs, temp, path, files0, w0, from);
      case Done(count) =>
        more := done + count;
        assert content[done..][..count] == content[done..more];
        return Replaced, more, Written(dest, content, more);
    }
  }

  /** Observes deferred write errors while the destination is untouched, then commits. */
  method Commit(
    fs: FileSystem, dest: Path, temp: Path,
    ghost path: Path, ghost files0: Files, ghost w0: Writer, ghost from: nat)
    returns (outcome: Outcome, ghost end: Pc)
    requires w0.temp == temp && At(fs, files0, path, w0, from, Syncing(dest))
    modifies fs
    ensures At(fs, files0, path, w0, from, end)
    ensures Over(end) && Ends(outcome, end)
    ensures fs.AllWork() && CanRename(old(fs.files), temp, dest) ==> outcome.Replaced?
  {
    var synced := fs.Sync();
    match synced {
      case Gone => return ProcessDied, Dead(false);
      case Error =>
        outcome, end := RemoveAbandonedTemp(fs, temp, path, files0, w0, from);
        return;
      case Done(_) =>
    }
    outcome, end := Publish(fs, dest, temp, path, files0, w0, from);
  }

  /** The commit point; a directory sync that fails after it is not a failure. */
  method Publish(
    fs: FileSystem, dest: Path, temp: Path,
    ghost path: Path, ghost files0: Files, ghost w0: Writer, ghost from: nat)
    returns (outcome: Outcome, ghost end: Pc)
    requires w0.temp == temp && At(fs, files0, path, w0, from, Renaming(dest))
    modifies fs
    ensures At(fs, files0, path, w0, from, end)
    ensures Over(end) && Ends(outcome, end)
    ensures fs.AllWork() && CanRename(old(fs.files), temp, dest) ==> outcome.Replaced?
  {
    var renamed := fs.Rename(temp, dest);
    match renamed {
      case Gone => return ProcessDied, Dead(false);
      case Error =>
        outcome, end := RemoveAbandonedTemp(fs, temp, path, files0, w0, from);
        return;
      case Done(_) =>
    }
    assert At(fs, files0, path, w0, from, SyncingDirectory);
    var directory := fs.Sync();
    if directory.Gone? {
      return ProcessDied, Dead(true);
    }
    return Replaced, Succeeded;
  }

  method RemoveAbandonedTemp(
    fs: FileSystem, temp: Path, ghost path: Path, ghost files0: Files, ghost w0: Writer, ghost from: nat)
    returns (outcome: Outcome, ghost end: Pc)
    requires w0.temp == temp && At(fs, files0, path, w0, from, Removing)
    modifies fs
    ensures At(fs, files0, path, w0, from, end)
    ensures Over(end) && Ends(outcome, end) && !outcome.Replaced?
  {
    var removed := fs.Remove(temp);
    match removed {
      case Gone => return ProcessDied, Dead(false);
      case Error => return Unchanged, Failed(true, false);
      case Done(_) => return Unchanged, Failed(true, true);
    }
  }

  // ----- one process is one writer of the protocol

  function MovesFrom(turns: nat -> Turn, from: nat, n: nat): (r: seq<(nat, Turn)>)
    ensures |r| == n && forall k :: 0 <= k < n ==> r[k].0 == 0
  {
    if n == 0 then [] else MovesFrom(turns, from, n - 1) + [(0, turns(from + n - 1))]
  }

  lemma {:induction false} RunSnoc(s: Shared, moves: seq<(nat, Turn)>, last: (nat, Turn))
    requires forall k :: 0 <= k < |moves| ==> moves[k].0 < |s.writers|
    requires last.0 < |s.writers|
    ensures |Run(s, moves).writers| == |s.writers|
    ensures Run(s, moves + [last]) == Step(Run(s, moves), last.0, last.1)
    decreases |moves|
  {
    if moves == [] {
      assert [] + [last] == [last] && [last][1..] == [];
      assert Run(s, [last]) == Run(Step(s, last.0, last.1), []);
    } else {
      RunSnoc(Step(s, moves[0].0, moves[0].1), moves[1..], last);
      assert (moves + [last])[1..] == moves[1..] + [last];
    }
  }

  /** A process alone is a run of the protocol with one writer. */
  lemma {:induction false} SoloIsRun(files: Files, path: Path, w: Writer, turns: nat -> Turn, from: nat, n: nat)
    ensures var (after, v) := Solo(files, path, w, turns, from, n);
            var t := Run(Shared(files, path, [w], []), MovesFrom(turns, from, n));
            t.files == after && t.writers == [v] && t.path == path
  {
    if n > 0 {
      SoloIsRun(files, path, w, turns, from, n - 1);
      RunSnoc(Shared(files, path, [w], []), MovesFrom(turns, from, n - 1), (0, turns(from + n - 1)));
    }
  }
}
