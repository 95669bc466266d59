/** What every run of concurrent config writers keeps. */
module AtomicWriteFacts {
  import opened Sequences
  import opened Disks
  import opened AtomicWrites

  /** Whether a writer owns a temp file. */
  predicate Holds(pc: Pc) {
    !Over(pc) && !pc.Resolving? && !pc.Opening? && !pc.SyncingDirectory?
  }

  /** A writer that failed and removed the temp it had made. */
  predicate CleanedUp(pc: Pc) {
    pc.Failed? && pc.created && pc.removed
  }

  /** A writer whose temp has become the destination, or was removed. */
  predicate LeavesNone(pc: Pc) {
    Renamed(pc) || CleanedUp(pc)
  }

  /** What never changes in one run: the disk it started from, the file replaced, and its mode. */
  datatype Plan = Plan(start: Files, path: Path, dest: Path, mode: nat)

  predicate IsPlan(plan: Plan) {
    && Destination(plan.start, plan.path) == Some(plan.dest)
    && (plan.dest in plan.start ==> !plan.start[plan.dest].Link?)
    && plan.mode == if plan.dest in plan.start then plan.start[plan.dest].mode else OWNER_ONLY
  }

  predicate TempIs(files: Files, w: Writer, bytes: Bytes, mode: nat) {
    w.temp in files && files[w.temp] == File(bytes, mode)
  }

  /** A writer's temp holds what its calls so far put there. */
  predicate TempOk(files: Files, plan: Plan, w: Writer) {
    match w.pc
    case ReadingMode(dest) => dest == plan.dest && TempIs(files, w, [], OWNER_ONLY)
    case SettingMode(dest, mode) => dest == plan.dest && mode == plan.mode && TempIs(files, w, [], OWNER_ONLY)
    case Writing(dest, done) => dest == plan.dest && done < |w.content| && TempIs(files, w, w.content[..done], plan.mode)
    case Syncing(dest) => dest == plan.dest && TempIs(files, w, w.content, plan.mode)
    case Renaming(dest) => dest == plan.dest && TempIs(files, w, w.content, plan.mode)
    case Removing => w.temp in files && files[w.temp].File? && files[w.temp].mode in {OWNER_ONLY, plan.mode}
    case Opening(dest) => dest == plan.dest
    case _ => true
  }

  predicate WriterOk(files: Files, plan: Plan, w: Writer) {
    TempOk(files, plan, w) && (Holds(w.pc) || LeavesNone(w.pc) ==> w.temp != plan.dest && w.temp !in plan.start)
  }

  /** The destination is never a link, never disappears, and keeps its mode. */
  predicate DestSteady(files: Files, plan: Plan) {
    && (plan.dest in plan.start ==> plan.dest in files)
    && (plan.dest in files ==> !files[plan.dest].Link? && files[plan.dest].mode == plan.mode)
    && Destination(files, plan.path) == Some(plan.dest)
  }

  /** A temp name is not the name to be replaced, unless that one exists and blocks it. */
  predicate Separate(plan: Plan, w: Writer) {
    w.temp == plan.dest ==> plan.dest in plan.start
  }

  /** What one call may change: the caller's temp, and the destination by a rename. */
  ghost predicate Footprint(files: Files, plan: Plan, w: Writer, after: Files, pc: Pc) {
    && (forall p :: p != w.temp && p != plan.dest ==> SameAt(after, files, p))
    && (if Renamed(pc) && !Renamed(w.pc) then plan.dest in after && after[plan.dest] == File(w.content, plan.mode)
        else SameAt(after, files, plan.dest))
    && (!SameAt(after, files, w.temp) ==> Holds(w.pc) || Holds(pc))
    && (Holds(pc) && !Holds(w.pc) ==> w.temp !in files)
    && (Renamed(w.pc) ==> Renamed(pc))
    && (LeavesNone(pc) && !LeavesNone(w.pc) ==> w.temp !in after)
  }

  lemma CallKeepsTemp(files: Files, plan: Plan, w: Writer, turn: Turn)
    requires IsPlan(plan) && WriterOk(files, plan, w) && DestSteady(files, plan) && Separate(plan, w)
    requires forall p :: p in plan.start ==> p in files
    ensures var (after, pc) := Call(files, plan.path, w, turn);
            WriterOk(after, plan, w.(pc := pc))
  {
    if w.pc.Writing? && turn.Works? {
      var upTo := w.pc.done + Chunk(turn.most, |w.content| - w.pc.done);
      assert w.content[..w.pc.done] + w.content[w.pc.done..upTo] == w.content[..upTo];
      assert w.content[..|w.content|] == w.content;
    }
  }

  lemma CallStaysInside(files: Files, plan: Plan, w: Writer, turn: Turn)
    requires IsPlan(plan) && WriterOk(files, plan, w) && DestSteady(files, plan) && Separate(plan, w)
    requires forall p :: p in plan.start ==> p in files
    ensures var (after, pc) := Call(files, plan.path, w, turn);
            Footprint(files, plan, w, after, pc)
  {
  }

  /** Each call keeps its writer's temp in step, and touches nothing but that and, by a rename, the destination. */
  lemma CallKeepsWriter(files: Files, plan: Plan, w: Writer, turn: Turn)
    requires IsPlan(plan) && WriterOk(files, plan, w) && DestSteady(files, plan) && Separate(plan, w)
    requires forall p :: p in plan.start ==> p in files
    ensures var (after, pc) := Call(files, plan.path, w, turn);
            WriterOk(after, plan, w.(pc := pc)) && Footprint(files, plan, w, after, pc)
  {
    CallKeepsTemp(files, plan, w, turn);
    CallStaysInside(files, plan, w, turn);
  }

  // ----- calls that fail

  /**
   * A call that fails changes nothing and abandons the write: what it has made is still to be
   * removed, or cannot be. After the rename nothing can fail the write any more.
   */
  lemma FailedCallAbandons(files: Files, path: Path, w: Writer, turn: Turn)
    requires turn.Fails? && !Over(w.pc)
    ensures Call(files, path, w, turn)
         == (files, if w.pc == SyncingDirectory then Succeeded
                    else if w.pc == Removing then Failed(true, false)
                    else if Holds(w.pc) then Removing
                    else Failed(false, false))
  {
  }

  /** A removal that works takes the temp away, and ends the attempt. */
  lemma RemovalWorks(files: Files, path: Path, w: Writer, most: nat)
    requires w.pc == Removing
    ensures Call(files, path, w, Works(most)) == (files - {w.temp}, Failed(true, true))
  {
  }

  predicate Abandoned(pc: Pc) {
    pc.Removing? || pc.Failed? || pc == Dead(false)
  }

  predicate MovesOf(moves: seq<(nat, Turn)>, writers: nat) {
    forall k :: 0 <= k < |moves| ==> moves[k].0 < writers
  }

  /** An abandoned write is never taken up again: over any run of all writers it does not rename. */
  lemma {:induction false} AbandonedNeverRenames(s: Shared, moves: seq<(nat, Turn)>, i: nat)
    requires MovesOf(moves, |s.writers|) && i < |s.writers| && Abandoned(s.writers[i].pc)
    ensures |Run(s, moves).writers| == |s.writers| && Abandoned(Run(s, moves).writers[i].pc)
    ensures i in Run(s, moves).renamed <==> i in s.renamed
    decreases |moves|
  {
    if moves != [] {
      var t := Step(s, moves[0].0, moves[0].1);
      assert Abandoned(t.writers[i].pc) && (i in t.renamed <==> i in s.renamed);
      AbandonedNeverRenames(t, moves[1..], i);
    }
  }

  // ----- all writers together

  predicate TempsApart(writers: seq<Writer>) {
    forall i, j :: 0 <= i < j < |writers| && Holds(writers[i].pc) && Holds(writers[j].pc)
      ==> writers[i].temp != writers[j].temp
  }

  /** The destination is as it was, or holds the whole content of the last writer that renamed. */
  predicate DestOk(s: Shared, plan: Plan) {
    if s.renamed == [] then SameAt(s.files, plan.start, plan.dest)
    else
      var last := s.renamed[|s.renamed| - 1];
      last < |s.writers| && plan.dest in s.files && s.files[plan.dest] == File(s.writers[last].content, plan.mode)
  }

  /** Nothing else that was there changes, and nothing else appears but temps. */
  ghost predicate FrameOk(s: Shared, plan: Plan) {
    && (forall p :: p in plan.start && p != plan.dest ==> SameAt(s.files, plan.start, p))
    && (forall p :: p in s.files && p !in plan.start && p != plan.dest ==> exists i :: 0 <= i < |s.writers| && s.writers[i].temp == p)
  }

  /** The log holds exactly the writers that renamed, each once. */
  predicate LogOk(s: Shared) {
    && (forall i :: 0 <= i < |s.writers| ==> (i in s.renamed <==> Renamed(s.writers[i].pc)))
    && Distinct(s.renamed)
  }

  predicate AllWritersOk(s: Shared, plan: Plan) {
    forall i :: 0 <= i < |s.writers| ==> WriterOk(s.files, plan, s.writers[i])
  }

  predicate AllSeparate(s: Shared, plan: Plan) {
    forall i :: 0 <= i < |s.writers| ==> Separate(plan, s.writers[i])
  }

  /** No other writer was given the same temp name. */
  predicate OwnTemp(s: Shared, i: nat)
    requires i < |s.writers|
  {
    forall j :: 0 <= j < |s.writers| && j != i ==> s.writers[j].temp != s.writers[i].temp
  }

  /** What a writer renamed, or removed when it failed, is gone. */
  predicate NoLeftovers(s: Shared) {
    forall i :: 0 <= i < |s.writers| && LeavesNone(s.writers[i].pc) && OwnTemp(s, i) ==> s.writers[i].temp !in s.files
  }

  ghost predicate Safe(s: Shared, plan: Plan) {
    && s.path == plan.path && AllSeparate(s, plan) && AllWritersOk(s, plan)
    && TempsApart(s.writers) && DestOk(s, plan) && FrameOk(s, plan) && LogOk(s) && NoLeftovers(s)
  }

  lemma SafeIsSteady(s: Shared, plan: Plan)
    requires IsPlan(plan) && Safe(s, plan)
    ensures DestSteady(s.files, plan)
    ensures forall p :: p in plan.start ==> p in s.files
  {
    assert plan.dest in s.files ==> !s.files[plan.dest].Link?;
    forall p | p in plan.start ensures p in s.files && (plan.start[p].Link? || s.files[p].Link? ==> plan.start[p] == s.files[p]) {
      assert p != plan.dest ==> SameAt(s.files, plan.start, p);
    }
    if plan.path in plan.start && plan.start[plan.path].Link? {
      FollowKept(plan.start, s.files, plan.path, MAX_LINKS);
    }
  }

  /** A holder other than the caller keeps its temp: no call touches it. */
  lemma OtherWriterKept(files: Files, plan: Plan, w: Writer, after: Files, pc: Pc, other: Writer)
    requires WriterOk(files, plan, other) && Footprint(files, plan, w, after, pc)
    requires Holds(other.pc) && Holds(w.pc) ==> other.temp != w.temp
    ensures WriterOk(after, plan, other)
    ensures Holds(other.pc) && Holds(pc) ==> other.temp != w.temp
  {
    if Holds(other.pc) {
      assert other.temp in files;
      assert SameAt(after, files, other.temp);
    }
  }

  lemma StepKeepsWriters(s: Shared, plan: Plan, i: nat, turn: Turn)
    requires IsPlan(plan) && Safe(s, plan) && i < |s.writers|
    ensures AllWritersOk(Step(s, i, turn), plan) && TempsApart(Step(s, i, turn).writers)
    ensures AllSeparate(Step(s, i, turn), plan)
  {
    var w, t := s.writers[i], Step(s, i, turn);
    var (after, pc) := Call(s.files, s.path, w, turn);
    SafeIsSteady(s, plan);
    CallKeepsWriter(s.files, plan, w, turn);
    forall j | 0 <= j < |s.writers| && j != i
      ensures WriterOk(after, plan, s.writers[j])
      ensures Holds(s.writers[j].pc) && Holds(pc) ==> s.writers[j].temp != w.temp
    {
      OtherWriterKept(s.files, plan, w, after, pc, s.writers[j]);
    }
  }

  lemma StepKeepsStart(s: Shared, plan: Plan, i: nat, turn: Turn, p: Path)
    requires IsPlan(plan) && Safe(s, plan) && i < |s.writers| && p in plan.start && p != plan.dest
    ensures SameAt(Step(s, i, turn).files, plan.start, p)
  {
    SafeIsSteady(s, plan);
    CallKeepsWriter(s.files, plan, s.writers[i], turn);
    assert SameAt(s.files, plan.start, p);
  }

  lemma StepKeepsNew(s: Shared, plan: Plan, i: nat, turn: Turn, p: Path)
    requires IsPlan(plan) && Safe(s, plan) && i < |s.writers| && p !in plan.start && p != plan.dest
    requires p in Step(s, i, turn).files
    ensures exists j :: 0 <= j < |s.writers| && Step(s, i, turn).writers[j].temp == p
  {
    var w, t := s.writers[i], Step(s, i, turn);
    SafeIsSteady(s, plan);
    CallKeepsWriter(s.files, plan, w, turn);
    if p == w.temp {
      assert t.writers[i].temp == p;
    } else {
      assert SameAt(t.files, s.files, p);
      var j :| 0 <= j < |s.writers| && s.writers[j].temp == p;
      assert t.writers[j].temp == p;
    }
  }

  lemma StepKeepsFrame(s: Shared, plan: Plan, i: nat, turn: Turn)
    requires IsPlan(plan) && Safe(s, plan) && i < |s.writers|
    ensures FrameOk(Step(s, i, turn), plan)
  {
    var t := Step(s, i, turn);
    forall p | p in plan.start && p != plan.dest ensures SameAt(t.files, plan.start, p) {
      StepKeepsStart(s, plan, i, turn, p);
    }
    forall p | p in t.files && p !in plan.start && p != plan.dest
      ensures exists j :: 0 <= j < |t.writers| && t.writers[j].temp == p
    {
      StepKeepsNew(s, plan, i, turn, p);
    }
  }

  lemma StepKeepsLog(s: Shared, plan: Plan, i: nat, turn: Turn)
    requires IsPlan(plan) && Safe(s, plan) && i < |s.writers|
    ensures LogOk(Step(s, i, turn)) && DestOk(Step(s, i, turn), plan)
  {
    var w, t := s.writers[i], Step(s, i, turn);
    var (after, pc) := Call(s.files, s.path, w, turn);
    SafeIsSteady(s, plan);
    CallKeepsWriter(s.files, plan, w, turn);
    assert t.writers[i].content == w.content && t.writers[i].pc == pc;
    assert forall j :: 0 <= j < |s.writers| && j != i ==> t.writers[j] == s.writers[j];
    if !(Renamed(pc) && !Renamed(w.pc)) {
      assert t.renamed == s.renamed && SameAt(after, s.files, plan.dest);
    }
  }

  lemma StepKeepsClean(s: Shared, plan: Plan, i: nat, turn: Turn)
    requires IsPlan(plan) && Safe(s, plan) && i < |s.writers|
    ensures NoLeftovers(Step(s, i, turn))
  {
    var w, t := s.writers[i], Step(s, i, turn);
    SafeIsSteady(s, plan);
    CallKeepsWriter(s.files, plan, w, turn);
    forall j | 0 <= j < |t.writers| && LeavesNone(t.writers[j].pc) && OwnTemp(t, j)
      ensures t.writers[j].temp !in t.files
    {
      assert forall k :: 0 <= k < |s.writers| ==> s.writers[k].temp == t.writers[k].temp;
      if j != i || LeavesNone(w.pc) {
        assert LeavesNone(s.writers[j].pc) && OwnTemp(s, j);
        assert WriterOk(s.files, plan, s.writers[j]);
        assert j != i ==> SameAt(t.files, s.files, s.writers[j].temp);
      }
    }
  }

  lemma StepKeepsSafe(s: Shared, plan: Plan, i: nat, turn: Turn)
    requires IsPlan(plan) && Safe(s, plan) && i < |s.writers|
    ensures Safe(Step(s, i, turn), plan)
  {
    StepKeepsWriters(s, plan, i, turn);
    StepKeepsFrame(s, plan, i, turn);
    StepKeepsLog(s, plan, i, turn);
    StepKeepsClean(s, plan, i, turn);
  }

  lemma {:induction false} RunKeepsSafe(s: Shared, plan: Plan, moves: seq<(nat, Turn)>)
    requires IsPlan(plan) && Safe(s, plan) && MovesOf(moves, |s.writers|)
    ensures Safe(Run(s, moves), plan)
    decreases |moves|
  {
    if moves != [] {
      StepKeepsSafe(s, plan, moves[0].0, moves[0].1);
      RunKeepsSafe(Step(s, moves[0].0, moves[0].1), plan, moves[1..]);
    }
  }

  predicate Fresh(s: Shared) {
    s.renamed == [] && forall i :: 0 <= i < |s.writers| ==> s.writers[i].pc.Resolving?
  }

  function PlanOf(s: Shared, dest: Path): Plan {
    Plan(s.files, s.path, dest,
         if dest in s.files && !s.files[dest].Link? then s.files[dest].mode else OWNER_ONLY)
  }

  /**
   * Every run of any number of writers, however calls fail and processes die. The file
   * reached through `path` is untouched until the first rename, and from then on holds the
   * whole content of the last writer that renamed, under the mode it always had (owner-only
   * if it is new). A writer that succeeded renamed once; one that failed never did.
   */
  lemma ReplacementIsAtomic(s: Shared, moves: seq<(nat, Turn)>)
    requires Fresh(s) && MovesOf(moves, |s.writers|)
    requires Destination(s.files, s.path).Some?
    requires AllSeparate(s, PlanOf(s, Destination(s.files, s.path).value))
    ensures var dest, t := Destination(s.files, s.path).value, Run(s, moves);
            && DestOk(t, PlanOf(s, dest))
            && FrameOk(t, PlanOf(s, dest))
            && Destination(t.files, s.path) == Some(dest)
            && SameWriters(s, t) && Distinct(t.renamed) && NoLeftovers(t)
            && forall i :: 0 <= i < |t.writers| ==>
              && (t.writers[i].pc.Succeeded? ==> i in t.renamed)
              && (t.writers[i].pc.Failed? ==> i !in t.renamed)
              && (i in t.renamed <==> Renamed(t.writers[i].pc))
  {
    var dest := Destination(s.files, s.path).value;
    var plan := PlanOf(s, dest);
    if s.path in s.files && s.files[s.path].Link? {
      FollowEnds(s.files, s.path, MAX_LINKS);
    }
    assert IsPlan(plan) && Safe(s, plan);
    RunKeepsSafe(s, plan, moves);
    SafeIsSteady(Run(s, moves), plan);
    RunKeepsWriters(s, moves);
  }

  /** The same writers with the same contents and temp names. */
  predicate SameWriters(s: Shared, t: Shared) {
    && |t.writers| == |s.writers|
    && forall i :: 0 <= i < |s.writers| ==>
         t.writers[i].content == s.writers[i].content && t.writers[i].temp == s.writers[i].temp
  }

  lemma {:induction false} RunKeepsWriters(s: Shared, moves: seq<(nat, Turn)>)
    requires MovesOf(moves, |s.writers|)
    ensures SameWriters(s, Run(s, moves))
    decreases |moves|
  {
    if moves != [] {
      RunKeepsWriters(Step(s, moves[0].0, moves[0].1), moves[1..]);
    }
  }

  predicate Refused(s: Shared) {
    s.renamed == [] && forall i :: 0 <= i < |s.writers| ==>
      s.writers[i].pc in {Resolving, Failed(false, false), Dead(false)}
  }

  /** A path that leads nowhere is refused: no run changes anything. */
  lemma {:induction false} DanglingIsRefused(s: Shared, moves: seq<(nat, Turn)>)
    requires Refused(s) && MovesOf(moves, |s.writers|)
    requires Destination(s.files, s.path).None?
    ensures Run(s, moves).files == s.files && Refused(Run(s, moves))
    decreases |moves|
  {
    if moves != [] {
      var t := Step(s, moves[0].0, moves[0].1);
      assert s.writers[moves[0].0].pc in {Resolving, Failed(false, false), Dead(false)};
      assert t.files == s.files && Refused(t);
      DanglingIsRefused(t, moves[1..]);
    }
  }

  /**
   * The condition on temp names is exact: a writer whose temp is its absent destination
   * makes the new file visible empty, before any rename.
   */
  lemma TempAtNewDestinationShows(s: Shared, i: nat)
    requires Fresh(s) && i < |s.writers|
    requires Destination(s.files, s.path) == Some(s.writers[i].temp)
    requires !Separate(PlanOf(s, s.writers[i].temp), s.writers[i])
    ensures !DestOk(Run(s, [(i, Works(0)), (i, Works(0))]), PlanOf(s, s.writers[i].temp))
  {
    var temp := s.writers[i].temp;
    var first := Step(s, i, Works(0));
    assert first.writers[i].pc == Opening(temp) && first.files == s.files;
    var second := Step(first, i, Works(0));
    assert second.files == s.files[temp := File([], OWNER_ONLY)] && second.renamed == [];
    assert !DestOk(second, PlanOf(s, temp));
    RunTwo(s, (i, Works(0)), (i, Works(0)));
  }

  lemma RunTwo(s: Shared, a: (nat, Turn), b: (nat, Turn))
    requires a.0 < |s.writers| && b.0 < |s.writers|
    ensures Run(s, [a, b]) == Step(Step(s, a.0, a.1), b.0, b.1)
  {
    assert [a, b][1..] == [b];
    assert Run(Step(s, a.0, a.1), [b]) == Run(Step(Step(s, a.0, a.1), b.0, b.1), []);
  }
}
