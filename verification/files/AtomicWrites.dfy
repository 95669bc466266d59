/**
 * Any number of processes replacing one config file, one system call at a time: every call
 * may fail, and every process may die between any two.
 */
module AtomicWrites {
  import opened Sequences
  import opened Disks

  /** Where a writer stands: the call it makes next. */
  datatype Pc =
    | Resolving
    | Opening(dest: Path)
    | ReadingMode(dest: Path)
    | SettingMode(dest: Path, mode: nat)
    | Writing(dest: Path, done: nat)
    | Syncing(dest: Path)
    | Renaming(dest: Path)
    | SyncingDirectory
    | Removing
    | Succeeded
    | Failed(created: bool, removed: bool)
    | Dead(renamed: bool)

  datatype Writer = Writer(content: Bytes, temp: Path, pc: Pc)

  /** The file a write through `path` replaces: a link is written through, a dangling one refused. */
  function Destination(files: Files, path: Path): Option<Path> {
    if path in files && files[path].Link? then Follow(files, path, MAX_LINKS) else Some(path)
  }

  function Renamed(pc: Pc): bool {
    pc.SyncingDirectory? || pc.Succeeded? || (pc.Dead? && pc.renamed)
  }

  predicate Over(pc: Pc) {
    pc.Succeeded? || pc.Failed? || pc.Dead?
  }

  /** One system call of one writer. */
  function Call(files: Files, path: Path, w: Writer, turn: Turn): (Files, Pc) {
    if Over(w.pc) then (files, w.pc)
    else if turn.Dies? then (files, Dead(Renamed(w.pc)))
    else
      match w.pc
      case Resolving =>
        if turn.Fails? || Destination(files, path).None? then (files, Failed(false, false))
        else (files, Opening(Destination(files, path).value))
      case Opening(dest) =>
        if turn.Fails? || w.temp in files then (files, Failed(false, false))
        else (files[w.temp := File([], OWNER_ONLY)], ReadingMode(dest))
      case ReadingMode(dest) =>
        if turn.Fails? then (files, Removing)
        else if dest !in files then (files, FirstWrite(dest, w.content))
        else if files[dest].Link? then (files, Removing)
        else (files, SettingMode(dest, files[dest].mode))
      case SettingMode(dest, mode) =>
        if turn.Fails? then (files, Removing)
        else (WithMode(files, w.temp, mode), FirstWrite(dest, w.content))
      case Writing(dest, done) =>
        if turn.Fails? || done >= |w.content| then (files, Removing)
        else
          var upTo := done + Chunk(turn.most, |w.content| - done);
          (Extended(files, w.temp, w.content[done..upTo]),
           if upTo == |w.content| then Syncing(dest) else Writing(dest, upTo))
      case Syncing(dest) =>
        (files, if turn.Fails? then Removing else Renaming(dest))
      case Renaming(dest) =>
        if turn.Fails? || !CanRename(files, w.temp, dest) then (files, Removing)
        else (Moved(files, w.temp, dest), SyncingDirectory)
      case SyncingDirectory =>
        (files, Succeeded)
      case Removing =>
        if turn.Fails? then (files, Failed(true, false)) else (files - {w.temp}, Failed(true, true))
  }

  /** Writing nothing makes no call. */
  function FirstWrite(dest: Path, content: Bytes): Pc {
    if content == [] then Syncing(dest) else Writing(dest, 0)
  }

  /** How much of `left` bytes a write that may take `most` takes: at least one. */
  function Chunk(most: nat, left: nat): (n: nat)
    requires left > 0
    ensures 1 <= n <= left
  {
    if most == 0 then 1 else if most < left then most else left
  }

  predicate CanRename(files: Files, source: Path, target: Path) {
    source in files && !(target in files && files[target].Directory?)
  }

  function Moved(files: Files, source: Path, target: Path): Files
    requires source in files
  {
    (files - {source})[target := files[source]]
  }

  function WithMode(files: Files, path: Path, mode: nat): Files {
    if path in files && files[path].File? then files[path := files[path].(mode := mode)] else files
  }

  function Extended(files: Files, path: Path, more: Bytes): Files {
    if path in files && files[path].File?
    then files[path := File(files[path].bytes + more, files[path].mode)]
    else files
  }

  /** All writers on one path; `renamed` logs whose rename happened, in order. */
  datatype Shared = Shared(files: Files, path: Path, writers: seq<Writer>, renamed: seq<nat>)

  function Step(s: Shared, i: nat, turn: Turn): Shared
    requires i < |s.writers|
  {
    var w := s.writers[i];
    var (files, pc) := Call(s.files, s.path, w, turn);
    Shared(files, s.path, s.writers[i := w.(pc := pc)],
           if Renamed(pc) && !Renamed(w.pc) then s.renamed + [i] else s.renamed)
  }

  /** A run: which writer moves next, and how its call goes. */
  function Run(s: Shared, moves: seq<(nat, Turn)>): (t: Shared)
    requires forall k :: 0 <= k < |moves| ==> moves[k].0 < |s.writers|
    decreases |moves|
  {
    if moves == [] then s else Run(Step(s, moves[0].0, moves[0].1), moves[1..])
  }
}
