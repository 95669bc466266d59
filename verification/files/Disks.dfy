/** A disk as this code sees it: names, the files under them, and symbolic links. */
module Disks {
  import opened Sequences

  type Path = string

  datatype Entry = File(bytes: Bytes, mode: nat) | Directory(mode: nat) | Link(target: Path)

  type Files = map<Path, Entry>

  /** How many links the kernel follows in one lookup. */
  const MAX_LINKS: nat := 40

  const OWNER_ONLY: nat := 0x180  // rw-------
  const EXECUTABLE: nat := 0x1ED  // rwxr-xr-x

  /** How a call goes: it works (a write takes up to `most` bytes), it fails, or the process dies. */
  datatype Turn = Works(most: nat) | Fails | Dies

  /** What `path` leads to, or nothing when a link dangles or there are too many. */
  function Follow(files: Files, path: Path, hops: nat): Option<Path>
    decreases hops
  {
    if path !in files then None
    else if !files[path].Link? then Some(path)
    else if hops == 0 then None
    else Follow(files, files[path].target, hops - 1)
  }

  /** The same name holds the same thing, or nothing, on both disks. */
  predicate SameAt(a: Files, b: Files, path: Path) {
    (path in a <==> path in b) && (path in a ==> a[path] == b[path])
  }

  /** Changing names that lead nowhere new leaves every lookup as it was. */
  lemma {:induction false} FollowKept(a: Files, b: Files, path: Path, hops: nat)
    requires Follow(a, path, hops).Some?
    requires forall p :: p in a ==> p in b && (a[p].Link? || b[p].Link? ==> a[p] == b[p])
    ensures Follow(b, path, hops) == Follow(a, path, hops)
    decreases hops
  {
    if a[path].Link? {
      FollowKept(a, b, a[path].target, hops - 1);
    }
  }

  lemma {:induction false} FollowEnds(files: Files, path: Path, hops: nat)
    requires Follow(files, path, hops).Some?
    ensures var end := Follow(files, path, hops).value; end in files && !files[end].Link?
    decreases hops
  {
    if files[path].Link? {
      FollowEnds(files, files[path].target, hops - 1);
    }
  }
}
