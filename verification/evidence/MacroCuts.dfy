/** What a deadline does to a macro scan: it cuts it to a prefix, or changes nothing. */
module MacroCuts {
  import opened Sequences
  import opened SyntaxTree
  import opened Evidence
  import opened Calls
  import opened MacroScans

  /** Rows are only ever appended. */
  predicate Appends(before: Scan, after: Scan) {
    before.rows <= after.rows
  }

  lemma EmitAppends(input: WalkInput, x: Pending, scan: Scan)
    ensures Appends(scan, EmitFragmentRow(input, x, scan))
  {
  }

  lemma NestedKeepsRows(input: WalkInput, late: Deadline, x: Pending, scan: Scan)
    ensures OpenNested(input, late, x, scan).0.rows == scan.rows
  {
  }

  /** A pop that the deadline lets through. */
  lemma NodeInTime(input: WalkInput, late: Deadline, x: Pending, scan: Scan)
    requires !Spent(late, scan.readings)
    ensures var read := scan.(readings := scan.readings + 1);
            ScanNode(input, late, x, scan) ==
            (if x.depth >= MAX_WALK_DEPTH then (read.(capped := true), None)
             else OpenNested(input, late, x, EmitFragmentRow(input, x, read)))
  {
  }

  lemma NodeAppends(input: WalkInput, late: Deadline, x: Pending, scan: Scan)
    ensures Appends(scan, ScanNode(input, late, x, scan).0)
  {
    if !Spent(late, scan.readings) {
      var read := scan.(readings := scan.readings + 1);
      NodeInTime(input, late, x, scan);
      EmitAppends(input, x, read);
      NestedKeepsRows(input, late, x, EmitFragmentRow(input, x, read));
    }
  }

  lemma {:induction false} ItemAppends(input: WalkInput, late: Deadline, x: Pending, scan: Scan)
    requires CanScan(x)
    ensures Appends(scan, ScanItem(input, late, x, scan))
    decreases MAX_MACRO_DEPTH - x.fragment.macroDepth, MAX_WALK_DEPTH - x.depth, 0
  {
    if !ScanEnded(scan) {
      var (visited, inner) := ScanNode(input, late, x, scan);
      NodeAppends(input, late, x, scan);
      if x.depth < MAX_WALK_DEPTH {
        var next := visited;
        if inner.Some? {
          ItemAppends(input, late, inner.value, visited);
          next := ScanItem(input, late, inner.value, visited);
        }
        KidsAppend(input, late, x, 0, next);
        PrefixTransitive(scan.rows, visited.rows, next.rows);
        PrefixTransitive(scan.rows, next.rows, ScanKids(input, late, x, 0, next).rows);
      }
    }
  }

  lemma {:induction false} KidsAppend(input: WalkInput, late: Deadline, x: Pending, i: nat, scan: Scan)
    requires CanScan(x) && x.depth < MAX_WALK_DEPTH && i <= |Kids(x.node)|
    ensures Appends(scan, ScanKids(input, late, x, i, scan))
    decreases MAX_MACRO_DEPTH - x.fragment.macroDepth, MAX_WALK_DEPTH - x.depth - 1, 1 + |Kids(x.node)| - i
  {
    if i < |Kids(x.node)| {
      var next := ScanItem(input, late, Kid(x, i), scan);
      ItemAppends(input, late, Kid(x, i), scan);
      KidsAppend(input, late, x, i + 1, next);
      PrefixTransitive(scan.rows, next.rows, ScanKids(input, late, x, i + 1, next).rows);
    }
  }

  // ----- under a deadline

  /** Equal but for the clock readings, and neither of them cut. */
  predicate SameScan(b: Scan, u: Scan) {
    && b.rows == u.rows && b.capped == u.capped && b.overflow == u.overflow
    && !b.timedOut && !u.timedOut && !b.stopped && !u.stopped
  }

  /** `b` was cut by the deadline, which is spent from now on, and holds a prefix of what `u` holds. */
  predicate CutScan(late: Deadline, b: Scan, u: Scan) {
    b.timedOut && !b.overflow && Spent(late, b.readings) && b.rows <= u.rows && !u.stopped && !u.timedOut
  }

  predicate SameOrCut(late: Deadline, b: Scan, u: Scan) {
    SameScan(b, u) || CutScan(late, b, u)
  }

  /** A deadline that has no end cuts nothing. */
  predicate IsFree(free: Deadline) {
    free.budget.None?
  }

  lemma ReparseUnderDeadline(input: WalkInput, late: Deadline, free: Deadline, text: Text, i: nat, j: nat)
    requires Steady(late) && IsFree(free)
    ensures var b, u := Reparsed(input, late, text, i), Reparsed(input, free, text, j);
            || (b.0 == u.0 && b.0 != Err(TimedOut))
            || (b.0 == Err(TimedOut) && Spent(late, b.1) && u.0 != Err(TimedOut))
  {
    var b := Reparsed(input, late, text, i);
    if Spent(late, i) {
      SpentStaysSpent(late, i, i + 1);
    } else if late.budget.Some? && late.cancelsReparse(text, i) {
      UsedUpIsSpent(late, i);
      SpentStaysSpent(late, i + 1, i + 2);
    } else if input.reparse(text).None? && Spent(late, i + 1) {
      SpentStaysSpent(late, i + 1, i + 2);
    }
  }

  lemma OpenUnderDeadline(
    input: WalkInput, late: Deadline, free: Deadline, start: nat, end: nat, macroDepth: nat, caller: Caller, b: Scan, u: Scan)
    requires Steady(late) && IsFree(free) && SameScan(b, u) && !b.overflow
    ensures var rb, ru := Open(input, late, start, end, macroDepth, caller, b), Open(input, free, start, end, macroDepth, caller, u);
            || (SameScan(rb.0, ru.0) && rb.1 == ru.1 && !rb.0.overflow)
            || (CutScan(late, rb.0, ru.0) && rb.1.None?)
  {
    if macroDepth < MAX_MACRO_DEPTH && NodeText(input.source, start, end).Ok? {
      ReparseUnderDeadline(input, late, free, Wrapped(input.frame, NodeText(input.source, start, end).value), b.readings, u.readings);
    }
  }

  lemma NestedUnderDeadline(input: WalkInput, late: Deadline, free: Deadline, x: Pending, b: Scan, u: Scan)
    requires Steady(late) && IsFree(free) && SameScan(b, u)
    ensures var rb, ru := OpenNested(input, late, x, b), OpenNested(input, free, x, u);
            (SameScan(rb.0, ru.0) && rb.1 == ru.1) || (CutScan(late, rb.0, ru.0) && rb.1.None?)
  {
    var nested := if InFrame(x.node, x.fragment) then NestedRange(x) else None;
    if !b.overflow && nested.Some? {
      OpenUnderDeadline(input, late, free, nested.value.0, nested.value.1, x.fragment.macroDepth + 1, x.caller, b, u);
    }
  }

  lemma EmitUnderDeadline(input: WalkInput, x: Pending, b: Scan, u: Scan)
    requires SameScan(b, u)
    ensures SameScan(EmitFragmentRow(input, x, b), EmitFragmentRow(input, x, u))
  {
  }

  lemma NodeReached(input: WalkInput, late: Deadline, free: Deadline, x: Pending, b: Scan, u: Scan)
    requires Steady(late) && IsFree(free) && SameScan(b, u) && !Spent(late, b.readings)
    ensures var rb, ru := ScanNode(input, late, x, b), ScanNode(input, free, x, u);
            (SameScan(rb.0, ru.0) && rb.1 == ru.1) || (CutScan(late, rb.0, ru.0) && rb.1.None?)
  {
    var nb, nu := b.(readings := b.readings + 1), u.(readings := u.readings + 1);
    NodeInTime(input, late, x, b);
    NodeInTime(input, free, x, u);
    if x.depth < MAX_WALK_DEPTH {
      EmitUnderDeadline(input, x, nb, nu);
      NestedUnderDeadline(input, late, free, x, EmitFragmentRow(input, x, nb), EmitFragmentRow(input, x, nu));
    }
  }

  lemma NodeUnderDeadline(input: WalkInput, late: Deadline, free: Deadline, x: Pending, b: Scan, u: Scan)
    requires Steady(late) && IsFree(free) && SameScan(b, u) && !b.overflow
    ensures var rb, ru := ScanNode(input, late, x, b), ScanNode(input, free, x, u);
            (SameScan(rb.0, ru.0) && rb.1 == ru.1) || (CutScan(late, rb.0, ru.0) && rb.1.None?)
  {
    if Spent(late, b.readings) {
      assert ScanNode(input, late, x, b)
        == (b.(readings := b.readings + 1, timedOut := true, stopped := true), None);
      SpentStaysSpent(late, b.readings, b.readings + 1);
      NodeAppends(input, free, x, u);
      FreeStaysFree(input, free, x, u);
    } else {
      NodeReached(input, late, free, x, b, u);
    }
  }

  /** Without a deadline nothing is cut. */
  lemma FreeStaysFree(input: WalkInput, free: Deadline, x: Pending, u: Scan)
    requires IsFree(free) && !u.timedOut && !u.stopped
    ensures !ScanNode(input, free, x, u).0.timedOut && !ScanNode(input, free, x, u).0.stopped
  {
    NodeInTime(input, free, x, u);
  }

  lemma {:induction false} FreeItem(input: WalkInput, free: Deadline, x: Pending, u: Scan)
    requires CanScan(x) && IsFree(free) && !u.timedOut && !u.stopped
    ensures !ScanItem(input, free, x, u).timedOut && !ScanItem(input, free, x, u).stopped
    decreases MAX_MACRO_DEPTH - x.fragment.macroDepth, MAX_WALK_DEPTH - x.depth, 0
  {
    if !ScanEnded(u) {
      var (visited, inner) := ScanNode(input, free, x, u);
      FreeStaysFree(input, free, x, u);
      if x.depth < MAX_WALK_DEPTH {
        if inner.Some? {
          FreeItem(input, free, inner.value, visited);
        }
        FreeKids(input, free, x, 0, if inner.Some? then ScanItem(input, free, inner.value, visited) else visited);
      }
    }
  }

  lemma {:induction false} FreeKids(input: WalkInput, free: Deadline, x: Pending, i: nat, u: Scan)
    requires CanScan(x) && x.depth < MAX_WALK_DEPTH && i <= |Kids(x.node)|
    requires IsFree(free) && !u.timedOut && !u.stopped
    ensures !ScanKids(input, free, x, i, u).timedOut && !ScanKids(input, free, x, i, u).stopped
    decreases MAX_MACRO_DEPTH - x.fragment.macroDepth, MAX_WALK_DEPTH - x.depth - 1, 1 + |Kids(x.node)| - i
  {
    if i < |Kids(x.node)| {
      FreeItem(input, free, Kid(x, i), u);
      FreeKids(input, free, x, i + 1, ScanItem(input, free, Kid(x, i), u));
    }
  }

  /** Once cut, a scan stops at the next node it comes to, and adds nothing. */
  lemma CutItem(input: WalkInput, late: Deadline, x: Pending, b: Scan)
    requires Steady(late) && CanScan(x) && b.timedOut && !b.overflow && Spent(late, b.readings)
    ensures var r := ScanItem(input, late, x, b);
            r.timedOut && !r.overflow && Spent(late, r.readings) && r.rows == b.rows && r.stopped
  {
    if !b.stopped {
      SpentStaysSpent(late, b.readings, b.readings + 1);
      var stopped := b.(readings := b.readings + 1, stopped := true);
      assert ScanNode(input, late, x, b) == (stopped, None);
      if x.depth < MAX_WALK_DEPTH {
        StoppedKids(input, late, x, 0, stopped);
      }
    }
  }

  lemma {:induction false} StoppedKids(input: WalkInput, late: Deadline, x: Pending, i: nat, b: Scan)
    requires CanScan(x) && x.depth < MAX_WALK_DEPTH && i <= |Kids(x.node)| && ScanEnded(b)
    ensures ScanKids(input, late, x, i, b) == b
    decreases |Kids(x.node)| - i
  {
    if i < |Kids(x.node)| {
      StoppedKids(input, late, x, i + 1, b);
    }
  }

  lemma {:induction false} CutKids(input: WalkInput, late: Deadline, x: Pending, i: nat, b: Scan)
    requires Steady(late) && CanScan(x) && x.depth < MAX_WALK_DEPTH && i <= |Kids(x.node)|
    requires b.timedOut && !b.overflow && Spent(late, b.readings)
    ensures var r := ScanKids(input, late, x, i, b);
            r.timedOut && !r.overflow && Spent(late, r.readings) && r.rows == b.rows
    decreases |Kids(x.node)| - i
  {
    if i < |Kids(x.node)| {
      CutItem(input, late, Kid(x, i), b);
      CutKids(input, late, x, i + 1, ScanItem(input, late, Kid(x, i), b));
    }
  }

  lemma CutKidsStay(input: WalkInput, late: Deadline, free: Deadline, x: Pending, i: nat, b: Scan, u: Scan)
    requires Steady(late) && IsFree(free) && CanScan(x) && x.depth < MAX_WALK_DEPTH && i <= |Kids(x.node)|
    requires CutScan(late, b, u)
    ensures CutScan(late, ScanKids(input, late, x, i, b), ScanKids(input, free, x, i, u))
  {
    CutKids(input, late, x, i, b);
    KidsAppend(input, free, x, i, u);
    FreeKids(input, free, x, i, u);
    PrefixTransitive(b.rows, u.rows, ScanKids(input, free, x, i, u).rows);
  }

  /** What is left after a nested macro's fragment, if there is one. */
  function AfterInner(input: WalkInput, late: Deadline, visited: Scan, inner: Option<Pending>): Scan
    requires inner.Some? ==> CanScan(inner.value)
  {
    if inner.Some? then ScanItem(input, late, inner.value, visited) else visited
  }

  lemma CutInnerStays(input: WalkInput, late: Deadline, free: Deadline, b: Scan, u: Scan, inner: Option<Pending>)
    requires IsFree(free) && CutScan(late, b, u) && (inner.Some? ==> CanScan(inner.value))
    ensures CutScan(late, b, AfterInner(input, free, u, inner))
  {
    if inner.Some? {
      ItemAppends(input, free, inner.value, u);
      FreeItem(input, free, inner.value, u);
      PrefixTransitive(b.rows, u.rows, ScanItem(input, free, inner.value, u).rows);
    }
  }

  /** A scan under a deadline agrees with the one without, or was cut and holds a prefix of its rows. */
  lemma {:induction false} ItemUnderDeadline(input: WalkInput, late: Deadline, free: Deadline, x: Pending, b: Scan, u: Scan)
    requires Steady(late) && IsFree(free) && CanScan(x) && SameScan(b, u)
    ensures SameOrCut(late, ScanItem(input, late, x, b), ScanItem(input, free, x, u))
    decreases MAX_MACRO_DEPTH - x.fragment.macroDepth, MAX_WALK_DEPTH - x.depth, 0
  {
    if !b.overflow {
      var (vb, ib) := ScanNode(input, late, x, b);
      var (vu, iu) := ScanNode(input, free, x, u);
      NodeUnderDeadline(input, late, free, x, b, u);
      if x.depth < MAX_WALK_DEPTH {
        var nb, nu := AfterInner(input, late, vb, ib), AfterInner(input, free, vu, iu);
        if CutScan(late, vb, vu) {
          CutInnerStays(input, late, free, vb, vu, iu);
          CutKidsStay(input, late, free, x, 0, nb, nu);
        } else {
          if ib.Some? {
            ItemUnderDeadline(input, late, free, ib.value, vb, vu);
          }
          KidsUnderDeadline(input, late, free, x, 0, nb, nu);
        }
      }
    }
  }

  lemma {:induction false} KidsUnderDeadline(
    input: WalkInput, late: Deadline, free: Deadline, x: Pending, i: nat, b: Scan, u: Scan)
    requires Steady(late) && IsFree(free) && CanScan(x) && x.depth < MAX_WALK_DEPTH && i <= |Kids(x.node)|
    requires SameOrCut(late, b, u)
    ensures SameOrCut(late, ScanKids(input, late, x, i, b), ScanKids(input, free, x, i, u))
    decreases MAX_MACRO_DEPTH - x.fragment.macroDepth, MAX_WALK_DEPTH - x.depth - 1, 1 + |Kids(x.node)| - i
  {
    if CutScan(late, b, u) {
      CutKidsStay(input, late, free, x, i, b, u);
    } else if i < |Kids(x.node)| {
      ItemUnderDeadline(input, late, free, Kid(x, i), b, u);
      KidsUnderDeadline(input, late, free, x, i + 1, ScanItem(input, late, Kid(x, i), b), ScanItem(input, free, Kid(x, i), u));
    }
  }

  /** The whole scan of one macro. */
  lemma ScanUnderDeadline(
    input: WalkInput, late: Deadline, free: Deadline, node: Tree, caller: Option<Text>, i: nat, j: nat)
    requires Steady(late) && IsFree(free)
    ensures SameOrCut(late, ScanMacro(input, late, node, caller, i), ScanMacro(input, free, node, caller, j))
  {
    match FirstTokens(Kids(node))
    case None =>
    case Some(tokens) =>
      var start, end := tokens.start + 1, Minus(tokens.end, 1);
      var (vb, ib) := Open(input, late, start, end, 0, Ok(caller), FreshScan(i));
      var (vu, iu) := Open(input, free, start, end, 0, Ok(caller), FreshScan(j));
      OpenUnderDeadline(input, late, free, start, end, 0, Ok(caller), FreshScan(i), FreshScan(j));
      if CutScan(late, vb, vu) {
        CutInnerStays(input, late, free, vb, vu, iu);
      } else if ib.Some? {
        ItemUnderDeadline(input, late, free, ib.value, vb, vu);
      }
  }

  /** With no deadline a scan yields the macro's rows, from whatever reading it starts. */
  lemma FreeScan(input: WalkInput, free: Deadline, node: Tree, caller: Option<Text>, reading: nat)
    requires IsFree(free)
    ensures var scan, full := ScanMacro(input, free, node, caller, reading), RowsIn(input, node, caller);
            scan.rows == full.rows && scan.capped == full.capped && scan.overflow == full.overflow && !scan.timedOut
  {
    ScanUnderDeadline(input, free, Never(), node, caller, reading, 0);
  }
}
