/** When a file runs out of time, and when it fails. */
module FileTimes {
  import opened Sequences
  import opened SyntaxTree
  import opened Evidence
  import opened Clock
  import opened Extract
  import opened FileCuts

  /** A deadline is spent once less than a millisecond is left of its budget. */
  lemma SpentIff(late: Deadline, reading: nat)
    ensures Spent(late, reading) <==> late.budget.Some? && late.budget.value < late.elapsed(reading) + 1_000_000
  {
    if late.budget.Some? {
      RemainingMillisSpent(late.budget.value, late.elapsed(reading));
    }
  }

  /**
   * Every way a file fails: its time is up or its parse cancelled before anything is read, it
   * has no result, or a position does not fit.
   */
  lemma FileFailsIff(file: FileRead, input: WalkInput, late: Deadline)
    ensures var found := FileEvidence(file, input, late);
            var cancelled := late.budget.Some? && (late.budget.value < late.elapsed(0) + 1_000_000 || late.cancelsProcess);
            && (found == Err(ParseTimeout) <==> cancelled)
            && (found == Err(PackFailed) <==> !cancelled && file.pack.None?)
            && (found.Ok? ==> !cancelled && file.pack.Some?)
  {
    SpentIff(late, 0);
  }

  /** Every reading of the clock leaves a millisecond of the budget, and nothing is cancelled. */
  ghost predicate NeverLate(late: Deadline) {
    late.budget.Some? ==>
      && Monotone(late) && (forall k: nat :: late.elapsed(k) + 1_000_000 <= late.budget.value)
      && !late.cancelsProcess && !late.cancelsParse
      && forall text, reading :: !late.cancelsReparse(text, reading)
  }

  lemma NeverSpent(late: Deadline, reading: nat)
    requires NeverLate(late)
    ensures Steady(late) && !Spent(late, reading)
  {
    SpentIff(late, reading);
  }

  lemma RunsInTime(input: WalkInput, late: Deadline, tree: Tree, imports: bool, rust: bool, reading: nat)
    requires NeverLate(late)
    ensures var shared := SharedRun(input, late, tree, imports, reading);
            !shared.timedOut && !CallRun(input, late, tree, rust, shared.readings).timedOut
  {
    var shared := SharedRun(input, late, tree, imports, reading);
    var calls := CallRun(input, late, tree, rust, shared.readings);
    NeverSpent(late, shared.readings);
    NeverSpent(late, calls.readings);
    SharedUnderDeadline(input, late, tree, imports, reading, reading);
    CallsUnderDeadline(input, late, tree, rust, shared.readings, shared.readings);
  }

  /** A deadline that is never reached changes nothing: the file yields what it yields without one, or fails as it does. */
  lemma InTimeIsUnbounded(file: FileRead, input: WalkInput, late: Deadline)
    requires NeverLate(late)
    ensures FileEvidence(file, input, late) == FileEvidence(file, input, Unbounded(late))
  {
    NeverSpent(late, 0);
    NeverSpent(late, 1);
    NeverSpent(late, 2);
    FileUnderDeadline(file, input, late);
    if file.pack.Some? {
      var (tree, reading) := ParseTree(file, late, 1);
      if tree.Ok? {
        RunsInTime(input, late, tree.value, file.pack.value.imports == [], file.rust, reading);
      }
    }
  }
}
