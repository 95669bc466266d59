/** The update as the process runs it, call by call. */
module Updates {
  import opened Sequences
  import opened Texts
  import opened Disks
  import opened FileSystems
  import opened Checksums
  import opened UpdateRuns

  /** What the process has done to its disk since call `calls`. */
  ghost function Now(fs: FileSystem, reply: Reply<()>): Stage
    reads fs
  {
    Stage(fs.files, fs.calls, reply)
  }

  /** Removes a file the flow made or superseded; a failure is only logged. */
  method RemoveLeftover(fs: FileSystem, path: Path) returns (gone: bool)
    modifies fs
    ensures fs.calls == old(fs.calls) + 1
    ensures gone <==> fs.turns(old(fs.calls)).Dies?
    ensures fs.files == if fs.turns(old(fs.calls)).Works? then old(fs.files) - {path} else old(fs.files)
  {
    var removed := fs.Remove(path);
    gone := removed.Gone?;
  }

  /** Removes each file in turn; only a death stops it. */
  method RemoveAll(fs: FileSystem, names: seq<Path>) returns (gone: bool)
    modifies fs
    ensures Now(fs, if gone then Gone else Done(())) == Clearing(fs.Luck(), old(fs.files), old(fs.calls), names)
  {
    ghost var goal := Clearing(fs.Luck(), fs.files, fs.calls, names);
    for i := 0 to |names|
      invariant Clearing(fs.Luck(), fs.files, fs.calls, names[i..]) == goal
    {
      assert names[i..][0] == names[i] && names[i..][1..] == names[i + 1..];
      gone := RemoveLeftover(fs, names[i]);
      if gone {
        return;
      }
    }
    gone := false;
  }

  /** Fetches `body` into `dest`; what a failed fetch left there is removed. */
  method Download(fs: FileSystem, body: Bytes, dest: Path) returns (reply: Reply<()>)
    modifies fs
    ensures Now(fs, reply) == DownloadRun(fs.Luck(), old(fs.files), old(fs.calls), body, dest)
  {
    reply := fs.Overwrite(dest, body, PLAIN);
    if reply.Error? {
      var gone := RemoveAll(fs, [dest]);
      if gone {
        return Gone;
      }
    }
  }

  /** Compares the tool's digest of the binary with the first entry for the asset. */
  method VerifyChecksum(fs: FileSystem, n: Names, tools: Tools) returns (reply: Reply<()>)
    modifies fs
    ensures Now(fs, reply) == VerifyRun(fs.Luck(), old(fs.files), old(fs.calls), n, tools)
  {
    var sums := fs.Read(n.sums);
    if !sums.Done? {
      return if sums.Gone? then Gone else Error;
    }
    var expected := ReadExpected(tools, sums.value);
    if expected.None? {
      return Error;
    }
    var binary := fs.Read(n.exe);
    if !binary.Done? {
      return if binary.Gone? then Gone else Error;
    }
    var actual := ReadActual(tools, binary.value);
    return if actual.Some? && actual == expected then Done(()) else Error;
  }

  /** The digest the checksum text gives first for the asset. */
  method ReadExpected(tools: Tools, sums: Bytes) returns (digest: Option<string>)
    ensures digest == ExpectedDigest(tools, sums)
  {
    var text := tools.decode(sums);
    if text.None? {
      return None;
    }
    digest := FirstEntry(Lines(text.value), ASSET);
  }

  /** The digest the tool prints, if it runs and succeeds. */
  method ReadActual(tools: Tools, binary: Bytes) returns (digest: Option<string>)
    ensures digest == ActualDigest(tools, binary)
  {
    var output := tools.sha256sum(binary);
    if output.NotSpawned? || !output.success {
      return None;
    }
    digest := ParseDigest(output.stdout);
  }

  method StagePrevious(fs: FileSystem, n: Names) returns (reply: Reply<()>)
    modifies fs
    ensures Now(fs, reply) == StageRun(fs.Luck(), old(fs.files), old(fs.calls), n)
  {
    reply := fs.Copy(n.target, n.prevTemp);
    if !reply.Done? {
      return;
    }
    reply := fs.Sync();
    if !reply.Done? {
      return;
    }
    reply := fs.Rename(n.prevTemp, n.prev);
  }

  /** Copies the target beside itself, through a temp and a rename, so the copy is never partial. */
  method RetainPreviousBinary(fs: FileSystem, n: Names) returns (reply: Reply<()>)
    modifies fs
    ensures Now(fs, reply) == RetainRun(fs.Luck(), old(fs.files), old(fs.calls), n)
  {
    var exists_ := fs.Exists(n.target);
    if !exists_.Done? {
      return if exists_.Gone? then Gone else Error;
    }
    if !exists_.value {
      return Done(());
    }
    reply := StagePrevious(fs, n);
    if reply.Error? {
      var gone := RemoveAll(fs, [n.prevTemp]);
      if gone {
        return Gone;
      }
    }
  }

  method MakeExecutable(fs: FileSystem, path: Path) returns (reply: Reply<()>)
    modifies fs
    ensures Now(fs, reply) == ExecutableRun(fs.Luck(), old(fs.files), old(fs.calls), path)
  {
    var mode := fs.Metadata(path);
    if !mode.Done? || mode.value.None? {
      return if mode.Gone? then Gone else Error;
    }
    reply := fs.SetMode(path, EXECUTABLE);
  }

  /** The mode first, then the copy of what is displaced, and the rename last. */
  method Place(fs: FileSystem, n: Names) returns (reply: Reply<()>)
    modifies fs
    ensures Now(fs, reply) == PlaceRun(fs.Luck(), old(fs.files), old(fs.calls), n)
  {
    reply := MakeExecutable(fs, n.exe);
    if !reply.Done? {
      return;
    }
    reply := RetainPreviousBinary(fs, n);
    if !reply.Done? {
      return;
    }
    reply := fs.Rename(n.exe, n.target);
  }

  /** Places the staged binary and clears what it supersedes, or clears the staged copy. */
  method PlaceStagedBinary(fs: FileSystem, n: Names) returns (reply: Reply<()>)
    modifies fs
    ensures Now(fs, reply) == PlaceStagedRun(fs.Luck(), old(fs.files), old(fs.calls), n)
  {
    reply := Place(fs, n);
    if !reply.Gone? {
      var gone := RemoveAll(fs, if reply.Done? then n.stale else [n.exe]);
      if gone {
        return Gone;
      }
    }
  }

  method Replace(fs: FileSystem, n: Names, tools: Tools, release: Release) returns (reply: Reply<()>)
    modifies fs
    ensures Now(fs, reply) == ReplaceRun(fs.Luck(), old(fs.files), old(fs.calls), n, tools, release)
  {
    reply := Download(fs, release.binary, n.exe);
    if !reply.Done? {
      return;
    }
    reply := Download(fs, release.sums, n.sums);
    if !reply.Done? {
      return;
    }
    reply := VerifyChecksum(fs, n, tools);
    if !reply.Done? {
      return;
    }
    reply := PlaceStagedBinary(fs, n);
  }

  /**
   * Downloads the release, verifies it, and replaces the target. The temp files are cleared
   * whether or not that worked.
   */
  method ApplyUpdate(fs: FileSystem, n: Names, tools: Tools, release: Release) returns (reply: Reply<()>)
    modifies fs
    ensures Now(fs, reply) == UpdateRun(fs.Luck(), old(fs.files), old(fs.calls), n, tools, release)
  {
    reply := Replace(fs, n, tools, release);
    if !reply.Gone? {
      var gone := RemoveAll(fs, [n.exe, n.sums]);
      if gone {
        return Gone;
      }
    }
  }
}
