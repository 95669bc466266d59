/** One update as a run of system calls: the disk it leaves, whatever fails and wherever it dies. */
module UpdateRuns {
  import opened Sequences
  import opened Texts
  import opened Disks
  import opened AtomicWrites
  import opened FileSystems
  import opened Checksums

  const PLAIN: nat := 0x1A4  // rw-r--r--

  /**
   * The names one update works on: the binary it replaces, the retained one, its own three
   * temps, and the files a new binary supersedes.
   */
  datatype Names = Names(target: Path, prev: Path, exe: Path, sums: Path, prevTemp: Path, stale: seq<Path>)

  /** What the digest tool does with a file's bytes, and how a text file is decoded. */
  datatype ToolRun = NotSpawned | Exited(success: bool, stdout: string)

  datatype Tools = Tools(sha256sum: Bytes -> ToolRun, decode: Bytes -> Option<string>)

  /** What the server sends: a binary and its checksum text. */
  datatype Release = Release(binary: Bytes, sums: Bytes)

  /** The digest the first entry of a checksum file gives. */
  function ExpectedDigest(tools: Tools, sums: Bytes): Option<string> {
    match tools.decode(sums)
    case None => None
    case Some(text) => FirstEntry(Lines(text), ASSET)
  }

  /** The digest the tool prints for a binary. */
  function ActualDigest(tools: Tools, binary: Bytes): Option<string> {
    match tools.sha256sum(binary)
    case NotSpawned => None
    case Exited(success, stdout) => if success then ParseDigest(stdout) else None
  }

  /** The binary has the digest its checksum text gives first. */
  predicate Verified(tools: Tools, release: Release) {
    ExpectedDigest(tools, release.sums).Some? && ActualDigest(tools, release.binary) == ExpectedDigest(tools, release.sums)
  }

  /** Where a run stands: the disk, the calls made, and how its last part ended. */
  datatype Stage = Stage(files: Files, calls: nat, reply: Reply<()>)

  /** Removals whose failures are only logged: a death alone stops them. */
  function Clearing(f: Fate, files: Files, calls: nat, names: seq<Path>): Stage
    decreases |names|
  {
    if names == [] then Stage(files, calls, Done(()))
    else
      match f.turns(calls)
      case Dies => Stage(files, calls + 1, Gone)
      case Fails => Clearing(f, files, calls + 1, names[1..])
      case Works(_) => Clearing(f, files - {names[0]}, calls + 1, names[1..])
  }

  /** `reply` once the removals are over. */
  function Cleared(f: Fate, s: Stage, names: seq<Path>): Stage {
    var cleared := Clearing(f, s.files, s.calls, names);
    if cleared.reply.Gone? then cleared else cleared.(reply := s.reply)
  }

  function DownloadRun(f: Fate, files: Files, calls: nat, body: Bytes, dest: Path): Stage {
    var (written, reply) := Overwritten(files, dest, body, PLAIN, f.turns(calls), f.torn(calls));
    var s := Stage(written, calls + 1, reply);
    if reply.Error? then Cleared(f, s, [dest]) else s
  }

  /** The bytes of a file read by call `calls`. */
  function ReadRun(f: Fate, files: Files, calls: nat, path: Path): Reply<Bytes> {
    var there := path in files && files[path].File?;
    Answer(f.turns(calls), there, if there then files[path].bytes else [])
  }

  function VerifyRun(f: Fate, files: Files, calls: nat, n: Names, tools: Tools): Stage {
    match ReadRun(f, files, calls, n.sums)
    case Gone => Stage(files, calls + 1, Gone)
    case Error => Stage(files, calls + 1, Error)
    case Done(sums) =>
      if ExpectedDigest(tools, sums).None? then Stage(files, calls + 1, Error)
      else
        match ReadRun(f, files, calls + 1, n.exe)
        case Gone => Stage(files, calls + 2, Gone)
        case Error => Stage(files, calls + 2, Error)
        case Done(binary) =>
          Stage(files, calls + 2, if Verified(tools, Release(binary, sums)) then Done(()) else Error)
  }

  /** A call that changes no name and no byte. */
  function IdleRun(f: Fate, files: Files, calls: nat): Stage {
    Stage(files, calls + 1, Answer(f.turns(calls), true, ()))
  }

  function RenameRun(f: Fate, files: Files, calls: nat, source: Path, target: Path): Stage {
    var reply := Answer(f.turns(calls), CanRename(files, source, target), ());
    Stage(if reply.Done? then Moved(files, source, target) else files, calls + 1, reply)
  }

  /** The target copied to the temp, synced, and renamed to the retained name. */
  function StageRun(f: Fate, files: Files, calls: nat, n: Names): Stage {
    var (copied, reply) := Copied(files, n.target, n.prevTemp, f.turns(calls), f.torn(calls));
    if !reply.Done? then Stage(copied, calls + 1, reply)
    else
      var synced := IdleRun(f, copied, calls + 1);
      if !synced.reply.Done? then synced else RenameRun(f, synced.files, synced.calls, n.prevTemp, n.prev)
  }

  function RetainRun(f: Fate, files: Files, calls: nat, n: Names): Stage {
    var looked := IdleRun(f, files, calls);
    if !looked.reply.Done? || n.target !in files then looked
    else
      var staged := StageRun(f, files, looked.calls, n);
      if staged.reply.Error? then Cleared(f, staged, [n.prevTemp]) else staged
  }

  function ExecutableRun(f: Fate, files: Files, calls: nat, path: Path): Stage {
    var looked := Answer(f.turns(calls), path in files && !files[path].Link?, ());
    if !looked.Done? then Stage(files, calls + 1, looked)
    else
      var reply := Answer(f.turns(calls + 1), true, ());
      Stage(if reply.Done? then WithMode(files, path, EXECUTABLE) else files, calls + 2, reply)
  }

  function PlaceRun(f: Fate, files: Files, calls: nat, n: Names): Stage {
    var marked := ExecutableRun(f, files, calls, n.exe);
    if !marked.reply.Done? then marked
    else
      var retained := RetainRun(f, marked.files, marked.calls, n);
      if !retained.reply.Done? then retained else RenameRun(f, retained.files, retained.calls, n.exe, n.target)
  }

  function PlaceStagedRun(f: Fate, files: Files, calls: nat, n: Names): Stage {
    var placed := PlaceRun(f, files, calls, n);
    match placed.reply
    case Gone => placed
    case Error => Cleared(f, placed, [n.exe])
    case Done(_) => Cleared(f, placed, n.stale)
  }

  function FetchRun(f: Fate, files: Files, calls: nat, n: Names, release: Release): Stage {
    var binary := DownloadRun(f, files, calls, release.binary, n.exe);
    if !binary.reply.Done? then binary else DownloadRun(f, binary.files, binary.calls, release.sums, n.sums)
  }

  function ReplaceRun(f: Fate, files: Files, calls: nat, n: Names, tools: Tools, release: Release): Stage {
    var fetched := FetchRun(f, files, calls, n, release);
    if !fetched.reply.Done? then fetched
    else
      var checked := VerifyRun(f, fetched.files, fetched.calls, n, tools);
      if !checked.reply.Done? then checked else PlaceStagedRun(f, checked.files, checked.calls, n)
  }

  /** A whole update. */
  function UpdateRun(f: Fate, files: Files, calls: nat, n: Names, tools: Tools, release: Release): Stage {
    var replaced := ReplaceRun(f, files, calls, n, tools, release);
    if replaced.reply.Gone? then replaced else Cleared(f, replaced, [n.exe, n.sums])
  }
}
