/** A deadline over a whole file: what it leaves is a prefix, and what it hides it reports. */
module FileCuts {
  import opened Sequences
  import opened SyntaxTree
  import opened Evidence
  import opened Walks
  import opened WalkFacts
  import opened WalkCuts
  import opened Extract

  lemma SharedUnderDeadline(input: WalkInput, late: Deadline, tree: Tree, imports: bool, i: nat, j: nat)
    requires Steady(late)
    ensures PrefixOrSame(late, SharedRun(input, late, tree, imports, i), SharedRun(input, Unbounded(late), tree, imports, j))
  {
    var sites := PreOrder(Root(tree));
    var b := WalkOf(BindingWalker, input, late, tree, Fresh(i));
    var u := WalkOf(BindingWalker, input, Unbounded(late), tree, Fresh(j));
    WalkUnderDeadline(BindingWalker, input, late, sites, Fresh(i), Fresh(j));
    if imports && !b.overflow {
      ImportsUnderDeadline(input, late, tree, b, u);
    }
  }

  lemma ImportsUnderDeadline(input: WalkInput, late: Deadline, tree: Tree, b: Run, u: Run)
    requires Steady(late) && PrefixOrSame(late, b, u) && !b.overflow
    ensures PrefixOrSame(late, WalkOf(ImportWalker, input, late, tree, b.(stopped := false)),
                         if u.overflow then u else WalkOf(ImportWalker, input, Unbounded(late), tree, u.(stopped := false)))
  {
    var sites := PreOrder(Root(tree));
    if !b.timedOut {
      WalkUnderDeadline(ImportWalker, input, late, sites, b.(stopped := false), u.(stopped := false));
    } else {
      CutStaysCut(ImportWalker, input, late, sites, b.(stopped := false), u.(stopped := false));
      if u.overflow {
        OverflowEnds(ImportWalker, input, Unbounded(late), sites, u.(stopped := false));
      }
    }
  }

  lemma CallsUnderDeadline(input: WalkInput, late: Deadline, tree: Tree, rust: bool, i: nat, j: nat)
    requires Steady(late)
    ensures PrefixOrSame(late, CallRun(input, late, tree, rust, i), CallRun(input, Unbounded(late), tree, rust, j))
  {
    if rust {
      WalkUnderDeadline(CallWalker, input, late, PreOrder(Root(tree)), Fresh(i), Fresh(j));
    }
  }

  /** A call walk that starts with the deadline spent yields nothing; it says so if it runs at all. */
  lemma SpentCalls(input: WalkInput, late: Deadline, tree: Tree, rust: bool, reading: nat)
    requires Spent(late, reading)
    ensures var run := CallRun(input, late, tree, rust, reading);
            run.items == [] && !run.overflow && !run.truncated && run.timedOut == rust
  {
    if rust {
      SpentWalkAddsNothing(CallWalker, input, late, PreOrder(Root(tree)), Fresh(reading));
    }
  }

  /**
   * Once one walker is cut, every later one contributes nothing: the import walk after a cut
   * binding walk, and the call walk after either.
   */
  lemma LaterWalkersAddNothing(input: WalkInput, late: Deadline, tree: Tree, imports: bool, rust: bool, reading: nat)
    requires Steady(late)
    ensures var bound := WalkOf(BindingWalker, input, late, tree, Fresh(reading));
            var shared := SharedRun(input, late, tree, imports, reading);
            && (bound.timedOut ==> shared.items == bound.items && shared.timedOut)
            && (shared.timedOut ==> CallRun(input, late, tree, rust, shared.readings).items == [])
  {
    var bound := WalkOf(BindingWalker, input, late, tree, Fresh(reading));
    WalkUnderDeadline(BindingWalker, input, late, PreOrder(Root(tree)), Fresh(reading), Fresh(reading));
    if bound.timedOut && imports {
      SpentWalkAddsNothing(ImportWalker, input, late, PreOrder(Root(tree)), bound.(stopped := false));
    }
    SharedUnderDeadline(input, late, tree, imports, reading, reading);
    var shared := SharedRun(input, late, tree, imports, reading);
    if shared.timedOut {
      SpentCalls(input, late, tree, rust, shared.readings);
    }
  }

  /** `b` is `u`, or is cut, says so, and holds a prefix of it. */
  predicate CutOrSame(b: Option<Extracted>, u: Option<Extracted>) {
    && (b.None? ==> u.None?)
    && (b.Some? && !b.value.timedOut ==> u == b)
    && (b.Some? && u.Some? ==> b.value.items <= u.value.items)
  }

  lemma UnboundedSharedInTime(input: WalkInput, late: Deadline, tree: Tree, imports: bool, reading: nat)
    requires late.budget.None? && !SharedRun(input, late, tree, imports, reading).overflow
    ensures !SharedRun(input, late, tree, imports, reading).timedOut
  {
    var sites := PreOrder(Root(tree));
    CompleteWalk(BindingWalker, input, late, sites, Fresh(reading));
    var bound := WalkOf(BindingWalker, input, late, tree, Fresh(reading));
    if imports {
      CompleteWalk(ImportWalker, input, late, sites, bound.(stopped := false));
    }
  }

  lemma UnboundedCallsInTime(input: WalkInput, late: Deadline, tree: Tree, rust: bool, reading: nat)
    requires late.budget.None? && !CallRun(input, late, tree, rust, reading).overflow
    ensures !CallRun(input, late, tree, rust, reading).timedOut
  {
    if rust {
      CompleteWalk(CallWalker, input, late, PreOrder(Root(tree)), Fresh(reading));
    }
  }

  lemma CombinedCutOrSame(late: Deadline, bs: Run, us: Run, bc: Run, uc: Run)
    requires PrefixOrSame(late, bs, us) && PrefixOrSame(late, bc, uc)
    requires bs.timedOut ==> bc.items == [] && !bc.overflow
    requires !us.overflow ==> !us.timedOut
    requires !uc.overflow ==> !uc.timedOut
    ensures CutOrSame(Combined(bs, bc), Combined(us, uc))
  {
    if !us.overflow && !uc.overflow {
      if bs.timedOut {
        PrefixTransitive(bs.items, us.items, us.items + uc.items);
        assert bs.items + [] == bs.items;
      }
    }
  }

  lemma TreeUnderDeadline(input: WalkInput, late: Deadline, tree: Tree, imports: bool, rust: bool, i: nat, j: nat)
    requires Steady(late)
    ensures CutOrSame(TreeEvidence(input, late, tree, imports, rust, i), TreeEvidence(input, Unbounded(late), tree, imports, rust, j))
  {
    var bs, us := SharedRun(input, late, tree, imports, i), SharedRun(input, Unbounded(late), tree, imports, j);
    var bc := CallRun(input, late, tree, rust, bs.readings);
    var uc := CallRun(input, Unbounded(late), tree, rust, us.readings);
    SharedUnderDeadline(input, late, tree, imports, i, j);
    CallsUnderDeadline(input, late, tree, rust, bs.readings, us.readings);
    if bs.timedOut {
      SpentCalls(input, late, tree, rust, bs.readings);
    }
    if !us.overflow {
      UnboundedSharedInTime(input, Unbounded(late), tree, imports, j);
    }
    if !uc.overflow {
      UnboundedCallsInTime(input, Unbounded(late), tree, rust, us.readings);
    }
    CombinedCutOrSame(late, bs, us, bc, uc);
  }

  /** A cancelled parse used up the time it was given. */
  predicate CancelsOnTime(late: Deadline, reading: nat) {
    late.cancelsParse ==> UsedUp(late, reading)
  }

  /** So a cancelled parse is reported as timed out, never as a failed one. */
  lemma CancelledParseTimesOut(file: FileRead, late: Deadline, reading: nat)
    requires CancelsOnTime(late, reading)
    ensures var b, u := ParseTree(file, late, reading).0, ParseTree(file, Unbounded(late), reading).0;
            b == u || b == Err(TimedOut)
  {
    if late.budget.Some? && late.cancelsParse && !Spent(late, reading) {
      UsedUpIsSpent(late, reading);
    }
  }

  lemma ExtraUnderDeadline(file: FileRead, input: WalkInput, late: Deadline, imports: bool, reading: nat)
    requires Steady(late) && CancelsOnTime(late, reading)
    ensures CutOrSame(ExtraEvidence(file, input, late, imports, reading),
                      ExtraEvidence(file, input, Unbounded(late), imports, reading))
  {
    CancelledParseTimesOut(file, late, reading);
    var b, u := ParseTree(file, late, reading), ParseTree(file, Unbounded(late), reading);
    if b.0.Ok? {
      TreeUnderDeadline(input, late, b.0.value, imports, file.rust, b.1, u.1);
    }
  }

  /**
   * A whole file under a deadline against the same file without one. When both succeed the
   * bounded items are a prefix; a bounded extraction that does not say it timed out is the
   * unbounded one, errors included.
   */
  lemma FileUnderDeadline(file: FileRead, input: WalkInput, late: Deadline)
    requires Steady(late) && CancelsOnTime(late, 1)
    ensures var b, u := FileEvidence(file, input, late), FileEvidence(file, input, Unbounded(late));
            && (b.Ok? && u.Ok? ==> b.value.items <= u.value.items)
            && (b.Ok? && !b.value.timedOut ==> b == u)
            && (b.Err? && b.error != ParseTimeout ==> b == u)
  {
    if file.pack.Some? {
      ExtraUnderDeadline(file, input, late, file.pack.value.imports == [], 1);
    }
  }
}
