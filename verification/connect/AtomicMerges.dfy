/** Config edits written through the atomic replacement: what the file parses to at any moment. */
module AtomicMerges {
  import opened Sequences
  import opened Disks
  import opened AtomicWrites
  import opened AtomicWriteFacts
  import opened Json
  import opened ConfigFile
  import opened ConfigFacts

  function ContentAt(files: Files, path: Path): Content {
    if path !in files then Absent
    else if files[path].File? then Regular(files[path].bytes)
    else Irregular
  }

  /** What the file parses to after a run. */
  function RootAfter(f: Format, s: Shared, moves: seq<(nat, Turn)>, dest: Path): Option<Value>
    requires MovesOf(moves, |s.writers|)
  {
    Root(f, ContentAt(Run(s, moves).files, dest))
  }

  /** `i` makes none of these moves. */
  predicate Idle(moves: seq<(nat, Turn)>, i: nat) {
    forall k :: 0 <= k < |moves| ==> moves[k].0 != i
  }

  /** What process `op` makes of the root it found; nothing when it refuses or has nothing to change. */
  function EditOf(f: Format, found: Option<Value>, op: Op): Option<Value> {
    if found.None? then None
    else
      match Edited(f, found.value, op)
      case Err(_) => None
      case Ok(after) => after
  }

  /**
   * Process `i` loaded the config when `loaded` moves had been made, none of them its own,
   * and writes the printed form of its edit of the root it found then.
   */
  predicate LoadsThenWrites(f: Format, s: Shared, moves: seq<(nat, Turn)>, dest: Path, op: Op, i: nat, loaded: nat)
    requires MovesOf(moves, |s.writers|) && i < |s.writers|
  {
    && loaded <= |moves| && Idle(moves[..loaded], i) && ValidOp(op)
    && var edited := EditOf(f, RootAfter(f, s, moves[..loaded], dest), op);
       edited.Some? && s.writers[i].content == f.render(edited.value)
  }

  /** So does every process that makes a move at all. */
  predicate AllLoadThenWrite(f: Format, s: Shared, moves: seq<(nat, Turn)>, dest: Path, ops: seq<Op>, loaded: seq<nat>)
    requires MovesOf(moves, |s.writers|)
  {
    && |ops| == |loaded| == |s.writers|
    && forall i :: 0 <= i < |ops| && !Idle(moves, i) ==> LoadsThenWrites(f, s, moves, dest, ops[i], i, loaded[i])
  }

  /** `root` edited by the processes of `chain`, one after the other. */
  function Chained(f: Format, root: Value, ops: seq<Op>, chain: seq<nat>): Option<Value>
    requires forall k :: 0 <= k < |chain| ==> chain[k] < |ops|
  {
    if chain == [] then Some(root)
    else EditOf(f, Chained(f, root, ops, chain[..|chain| - 1]), ops[chain[|chain| - 1]])
  }

  /** Different processes, all of which have renamed. */
  predicate IsChain(t: Shared, chain: seq<nat>) {
    && Distinct(chain)
    && forall k :: 0 <= k < |chain| ==> chain[k] < |t.writers| && chain[k] in t.renamed
  }

  // ----- runs in parts

  lemma {:induction false} RunCount(s: Shared, moves: seq<(nat, Turn)>)
    requires MovesOf(moves, |s.writers|)
    ensures |Run(s, moves).writers| == |s.writers|
    decreases |moves|
  {
    if moves != [] {
      RunCount(Step(s, moves[0].0, moves[0].1), moves[1..]);
    }
  }

  /** A run over `a` and then one over `b`, to be compared with one over both. */
  function RunBoth(s: Shared, a: seq<(nat, Turn)>, b: seq<(nat, Turn)>): Shared
    requires MovesOf(a, |s.writers|) && MovesOf(b, |s.writers|)
  {
    RunCount(s, a);
    Run(Run(s, a), b)
  }

  lemma {:induction false} RunConcat(s: Shared, a: seq<(nat, Turn)>, b: seq<(nat, Turn)>)
    requires MovesOf(a, |s.writers|) && MovesOf(b, |s.writers|)
    ensures Run(s, a + b) == RunBoth(s, a, b)
    decreases |a|
  {
    if a == [] {
      assert a + b == b;
    } else {
      var t := Step(s, a[0].0, a[0].1);
      RunConcat(t, a[1..], b);
      assert (a + b)[1..] == a[1..] + b;
      assert RunBoth(s, a, b) == RunBoth(t, a[1..], b);
    }
  }

  /** The log only grows. */
  lemma {:induction false} LogGrows(s: Shared, moves: seq<(nat, Turn)>)
    requires MovesOf(moves, |s.writers|)
    ensures s.renamed <= Run(s, moves).renamed
    decreases |moves|
  {
    if moves != [] {
      var t := Step(s, moves[0].0, moves[0].1);
      LogGrows(t, moves[1..]);
      PrefixTransitive(s.renamed, t.renamed, Run(t, moves[1..]).renamed);
    }
  }

  /** A process that makes no move stays where it was. */
  lemma {:induction false} IdleStays(s: Shared, moves: seq<(nat, Turn)>, i: nat)
    requires MovesOf(moves, |s.writers|) && i < |s.writers| && Idle(moves, i)
    ensures |Run(s, moves).writers| == |s.writers| && Run(s, moves).writers[i] == s.writers[i]
    decreases |moves|
  {
    if moves != [] {
      IdleStays(Step(s, moves[0].0, moves[0].1), moves[1..], i);
    }
  }

  lemma LogGrowsBetween(s: Shared, moves: seq<(nat, Turn)>, m: nat, n: nat)
    requires MovesOf(moves, |s.writers|) && m <= n <= |moves|
    ensures Run(s, moves[..m]).renamed <= Run(s, moves[..n]).renamed
  {
    var early, late := moves[..m], moves[m..n];
    assert moves[..n] == early + late;
    RunConcat(s, early, late);
    RunCount(s, early);
    LogGrows(Run(s, early), late);
  }

  /** What had renamed after `m` moves has renamed after `n`. */
  lemma ChainStays(s: Shared, moves: seq<(nat, Turn)>, m: nat, n: nat, chain: seq<nat>)
    requires MovesOf(moves, |s.writers|) && m <= n <= |moves| && IsChain(Run(s, moves[..m]), chain)
    ensures IsChain(Run(s, moves[..n]), chain)
  {
    LogGrowsBetween(s, moves, m, n);
    RunCount(s, moves[..m]);
    RunCount(s, moves[..n]);
  }

  // ----- the file at any moment

  lemma EditIsValid(f: Format, root: Value, op: Op)
    requires Valid(root) && ValidOp(op) && Edited(f, root, op).Ok? && Edited(f, root, op).value.Some?
    ensures Valid(Edited(f, root, op).value.value)
  {
    EditKeepsOthers(f, root, op);
  }

  /** A rename puts a printed root there, and it parses to that root. */
  lemma ParsesToEdit(f: Format, found: Option<Value>, op: Op, content: Content)
    requires IsFormat(f) && found.Some? && Valid(found.value) && ValidOp(op) && EditOf(f, found, op).Some?
    requires content == Regular(f.render(EditOf(f, found, op).value))
    ensures Root(f, content) == EditOf(f, found, op)
  {
    EditIsValid(f, found.value, op);
    var edited := EditOf(f, found, op).value;
    assert f.parse(f.render(edited)) == Some(edited);
  }

  /** After `n` moves: whether anyone has renamed, and what the last one that did put there. */
  lemma LastRenamed(s: Shared, moves: seq<(nat, Turn)>, dest: Path)
    requires Fresh(s) && MovesOf(moves, |s.writers|)
    requires Destination(s.files, s.path) == Some(dest) && AllSeparate(s, PlanOf(s, dest))
    ensures var t := Run(s, moves);
            if t.renamed == [] then ContentAt(t.files, dest) == ContentAt(s.files, dest)
            else
              var last := t.renamed[|t.renamed| - 1];
              && last < |s.writers| && !Idle(moves, last)
              && ContentAt(t.files, dest) == Regular(s.writers[last].content)
    ensures forall i :: 0 <= i < |s.writers| && Idle(moves, i) ==> i !in Run(s, moves).renamed
  {
    ReplacementIsAtomic(s, moves);
    forall i | 0 <= i < |s.writers| && Idle(moves, i) ensures i !in Run(s, moves).renamed {
      IdleStays(s, moves, i);
    }
  }

  /**
   * However many processes edit one config, whenever each loads it, and wherever their calls
   * fail or they die: after any of the moves the file parses to the old root edited by some
   * of the processes that have renamed, one after the other, each edit whole and made on the
   * root its process found.
   */
  lemma {:induction false} FileAlwaysParses(
    f: Format, s: Shared, moves: seq<(nat, Turn)>, dest: Path, root: Value, ops: seq<Op>, loaded: seq<nat>, n: nat)
    returns (chain: seq<nat>)
    requires IsFormat(f) && Fresh(s) && MovesOf(moves, |s.writers|) && n <= |moves|
    requires Destination(s.files, s.path) == Some(dest) && AllSeparate(s, PlanOf(s, dest))
    requires Root(f, ContentAt(s.files, dest)) == Some(root)
    requires AllLoadThenWrite(f, s, moves, dest, ops, loaded)
    ensures IsChain(Run(s, moves[..n]), chain) && |Run(s, moves[..n]).writers| == |ops|
    ensures RootAfter(f, s, moves[..n], dest) == Chained(f, root, ops, chain) && Chained(f, root, ops, chain).Some?
    decreases n
  {
    var t := Run(s, moves[..n]);
    LastRenamed(s, moves[..n], dest);
    RunKeepsWriters(s, moves[..n]);
    chain := [];
    if t.renamed != [] {
      var last := t.renamed[|t.renamed| - 1];
      var m := loaded[last];
      LoadedBefore(moves, last, m, n);
      var found := FileAlwaysParses(f, s, moves, dest, root, ops, loaded, m);
      RootIsValid(f, ContentAt(Run(s, moves[..m]).files, dest));
      ParsesToEdit(f, RootAfter(f, s, moves[..m], dest), ops[last], ContentAt(t.files, dest));
      LastRenamed(s, moves[..m], dest);
      chain := found + [last];
      OneMoreEdit(s, moves, m, n, found, last);
      assert chain[..|chain| - 1] == found;
    }
  }

  lemma ExtendChain(t: Shared, chain: seq<nat>, last: nat)
    requires IsChain(t, chain) && last < |t.writers| && last in t.renamed && last !in chain
    ensures IsChain(t, chain + [last])
  {
  }

  lemma OneMoreEdit(s: Shared, moves: seq<(nat, Turn)>, m: nat, n: nat, found: seq<nat>, last: nat)
    requires MovesOf(moves, |s.writers|) && m <= n <= |moves| && IsChain(Run(s, moves[..m]), found)
    requires last < |s.writers| && last in Run(s, moves[..n]).renamed && last !in Run(s, moves[..m]).renamed
    ensures IsChain(Run(s, moves[..n]), found + [last])
  {
    ChainStays(s, moves, m, n, found);
    RunCount(s, moves[..n]);
    ExtendChain(Run(s, moves[..n]), found, last);
  }

  /** A process that has moved within the first `n` moves loaded before that. */
  lemma LoadedBefore(moves: seq<(nat, Turn)>, i: nat, m: nat, n: nat)
    requires n <= |moves| && m <= |moves| && Idle(moves[..m], i) && !Idle(moves[..n], i)
    ensures m < n && !Idle(moves, i)
  {
    var k :| 0 <= k < n && moves[..n][k].0 == i;
    assert moves[k].0 == i;
    forall j | 0 <= j < m ensures moves[j].0 != i {
      assert moves[..m][j] == moves[j];
    }
  }

  /** Whatever edits were made on whatever roots, every other key and every other server keeps its value. */
  lemma {:induction false} ChainKeepsOthers(f: Format, root: Value, ops: seq<Op>, chain: seq<nat>, sections: set<string>)
    requires root.Object? && Valid(root)
    requires forall k :: 0 <= k < |chain| ==> chain[k] < |ops| && ValidOp(ops[chain[k]]) && Sections(ops[chain[k]]) <= sections
    requires Chained(f, root, ops, chain).Some?
    ensures var now := Chained(f, root, ops, chain).value;
            now.Object? && Valid(now) && SameOthers(root.members, now.members, sections)
    decreases |chain|
  {
    if chain != [] {
      var before, last := chain[..|chain| - 1], ops[chain[|chain| - 1]];
      ChainKeepsOthers(f, root, ops, before, sections);
      var found, now := Chained(f, root, ops, before).value, Chained(f, root, ops, chain).value;
      EditKeepsOthers(f, found, last);
      SameOthersWidens(found.members, now.members, Sections(last), sections);
      SameOthersTransitive(root.members, found.members, now.members, sections, sections);
      assert sections + sections == sections;
    }
  }
}
