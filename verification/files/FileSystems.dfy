/** The file system as one process sees it: every call may fail, or be the process's last. */
module FileSystems {
  import opened Sequences
  import opened Disks
  import opened AtomicWrites

  /** How a call ends for its caller; after `Gone` the process makes no further call. */
  datatype Reply<T> = Done(value: T) | Error | Gone

  /** `value` if the turn lets the call work and `allowed` holds. */
  function Answer<T>(turn: Turn, allowed: bool, value: T): Reply<T> {
    if turn.Dies? then Gone else if turn.Fails? || !allowed then Error else Done(value)
  }

  /** How every call of a process goes: its turn, and how much of a file it wrote if it was cut short. */
  datatype Fate = Fate(turns: nat -> Turn, torn: nat -> Option<nat>)

  /** A whole file written over a file or where there is nothing, or the part a cut call leaves. */
  function Overwritten(files: Files, path: Path, bytes: Bytes, mode: nat, turn: Turn, torn: Option<nat>): (Files, Reply<()>) {
    var opens := path !in files || files[path].File?;
    var reply := Answer(turn, opens, ());
    if reply.Done? then (files[path := File(bytes, mode)], reply)
    else if opens && torn.Some? then
      (files[path := File(if torn.value < |bytes| then bytes[..torn.value] else bytes, mode)], reply)
    else (files, reply)
  }

  function Copied(files: Files, source: Path, target: Path, turn: Turn, torn: Option<nat>): (Files, Reply<()>) {
    if source !in files || !files[source].File? then (files, Answer(turn, false, ()))
    else Overwritten(files, target, if source == target then [] else files[source].bytes, files[source].mode, turn, torn)
  }

  class FileSystem {
    /** How the k-th call of the process goes. */
    const turns: nat -> Turn
    /** How much the k-th call wrote if it wrote a file and was cut short. */
    const torn: nat -> Option<nat>
    var files: Files
    var calls: nat

    constructor (turns: nat -> Turn, torn: nat -> Option<nat>, files: Files)
      ensures this.turns == turns && this.torn == torn && this.files == files && calls == 0
    {
      this.turns := turns;
      this.torn := torn;
      this.files := files;
      calls := 0;
    }

    /** Nothing fails and the process lives on. */
    ghost predicate AllWork() {
      forall k :: turns(k).Works?
    }

    function Luck(): Fate {
      Fate(turns, torn)
    }

    /** Where a write through `path` lands. */
    method Resolve(path: Path) returns (reply: Reply<Path>)
      modifies this
      ensures calls == old(calls) + 1 && files == old(files)
      ensures var dest := Destination(files, path);
              reply == Answer(turns(old(calls)), dest.Some?, if dest.Some? then dest.value else path)
    {
      var dest := Destination(files, path);
      reply := Answer(turns(calls), dest.Some?, if dest.Some? then dest.value else path);
      calls := calls + 1;
    }

    /** Creates an owner-only file, refusing a name that is taken. */
    method CreateNew(path: Path) returns (reply: Reply<()>)
      modifies this
      ensures calls == old(calls) + 1
      ensures reply == Answer(turns(old(calls)), path !in old(files), ())
      ensures files == if reply.Done? then old(files)[path := File([], OWNER_ONLY)] else old(files)
    {
      reply := Answer(turns(calls), path !in files, ());
      if reply.Done? {
        files := files[path := File([], OWNER_ONLY)];
      }
      calls := calls + 1;
    }

    /** The mode of the file at `path`, which is no link; nothing when there is no file. */
    method Metadata(path: Path) returns (reply: Reply<Option<nat>>)
      modifies this
      ensures calls == old(calls) + 1 && files == old(files)
      ensures reply == Answer(turns(old(calls)), !(path in files && files[path].Link?),
                         if path in files && !files[path].Link? then Some(files[path].mode) else None)
    {
      reply := Answer(turns(calls), !(path in files && files[path].Link?),
                      if path in files && !files[path].Link? then Some(files[path].mode) else None);
      calls := calls + 1;
    }

    method SetMode(path: Path, mode: nat) returns (reply: Reply<()>)
      modifies this
      ensures calls == old(calls) + 1
      ensures reply == Answer(turns(old(calls)), true, ())
      ensures files == if reply.Done? then WithMode(old(files), path, mode) else old(files)
    {
      reply := Answer(turns(calls), true, ());
      if reply.Done? {
        files := WithMode(files, path, mode);
      }
      calls := calls + 1;
    }

    /** Appends some of `bytes`, at least one, and says how many. */
    method Write(path: Path, bytes: Bytes) returns (reply: Reply<nat>)
      requires bytes != []
      modifies this
      ensures calls == old(calls) + 1
      ensures reply == Answer(turns(old(calls)), true, Took(turns(old(calls)), bytes))
      ensures reply.Done? ==> 1 <= reply.value <= |bytes|
      ensures files == if reply.Done? then Extended(old(files), path, bytes[..reply.value]) else old(files)
    {
      reply := Answer(turns(calls), true, Took(turns(calls), bytes));
      if reply.Done? {
        files := Extended(files, path, bytes[..reply.value]);
      }
      calls := calls + 1;
    }

    /** A call that changes no name and no byte, such as a sync. */
    method Sync() returns (reply: Reply<()>)
      modifies this
      ensures calls == old(calls) + 1 && files == old(files)
      ensures reply == Answer(turns(old(calls)), true, ())
    {
      reply := Answer(turns(calls), true, ());
      calls := calls + 1;
    }

    method Exists(path: Path) returns (reply: Reply<bool>)
      modifies this
      ensures calls == old(calls) + 1 && files == old(files)
      ensures reply == Answer(turns(old(calls)), true, path in files)
    {
      reply := Answer(turns(calls), true, path in files);
      calls := calls + 1;
    }

    /** The bytes of the file at `path`. */
    method Read(path: Path) returns (reply: Reply<Bytes>)
      modifies this
      ensures calls == old(calls) + 1 && files == old(files)
      ensures var there := path in files && files[path].File?;
              reply == Answer(turns(old(calls)), there, if there then files[path].bytes else [])
    {
      var there := path in files && files[path].File?;
      reply := Answer(turns(calls), there, if there then files[path].bytes else []);
      calls := calls + 1;
    }

    /**
     * Writes a whole file in place, over a file or where there is nothing: not one step, so a
     * call that fails or dies may leave part of it.
     */
    method Overwrite(path: Path, bytes: Bytes, mode: nat) returns (reply: Reply<()>)
      modifies this
      ensures calls == old(calls) + 1
      ensures (files, reply) == Overwritten(old(files), path, bytes, mode, turns(old(calls)), torn(old(calls)))
    {
      var written := Overwritten(files, path, bytes, mode, turns(calls), torn(calls));
      files, reply := written.0, written.1;
      calls := calls + 1;
    }

    /** Copies a file's bytes and mode over another; onto itself, it is emptied before it is read. */
    method Copy(source: Path, target: Path) returns (reply: Reply<()>)
      modifies this
      ensures calls == old(calls) + 1
      ensures (files, reply) == Copied(old(files), source, target, turns(old(calls)), torn(old(calls)))
    {
      var copied := Copied(files, source, target, turns(calls), torn(calls));
      files, reply := copied.0, copied.1;
      calls := calls + 1;
    }

    /** Moves `source` over `target` in one step. */
    method Rename(source: Path, target: Path) returns (reply: Reply<()>)
      modifies this
      ensures calls == old(calls) + 1
      ensures reply == Answer(turns(old(calls)), CanRename(old(files), source, target), ())
      ensures files == if reply.Done? then Moved(old(files), source, target) else old(files)
    {
      reply := Answer(turns(calls), CanRename(files, source, target), ());
      if reply.Done? {
        files := Moved(files, source, target);
      }
      calls := calls + 1;
    }

    /** Removes a name; one that is not there is the goal state. */
    method Remove(path: Path) returns (reply: Reply<()>)
      modifies this
      ensures calls == old(calls) + 1
      ensures reply == Answer(turns(old(calls)), true, ())
      ensures files == if reply.Done? then old(files) - {path} else old(files)
    {
      reply := Answer(turns(calls), true, ());
      if reply.Done? {
        files := files - {path};
      }
      calls := calls + 1;
    }
  }

  /** How many of `bytes` a write takes. */
  function Took(turn: Turn, bytes: Bytes): nat {
    if turn.Works? && bytes != [] then Chunk(turn.most, |bytes|) else 0
  }
}
