/** What a deadline does to a walk: it cuts it to a prefix, or changes nothing. */
module WalkCuts {
  import opened Sequences
  import opened SyntaxTree
  import opened Evidence
  import opened Bindings
  import opened Calls
  import opened MacroScans
  import opened MacroCuts
  import opened Walks
  import opened WalkKeys

  /** Equal but for the clock readings and for how the run was cut. */
  predicate Agree(a: Run, b: Run) {
    a.items == b.items && a.counter == b.counter && a.seen == b.seen
    && a.truncated == b.truncated && a.overflow == b.overflow
  }

  /** `b` was cut by the deadline and holds a prefix of what `u`, without one, holds. */
  predicate CutShort(late: Deadline, b: Run, u: Run) {
    b.timedOut && !b.overflow && Spent(late, b.readings) && (!u.overflow ==> b.items <= u.items)
  }

  lemma {:induction false} AddRowsConcat(run: Run, a: seq<MacroRow>, b: seq<MacroRow>)
    ensures AddRows(run, a + b) == AddRows(AddRows(run, a), b)
    decreases |a|
  {
    if a == [] {
      assert a + b == b;
    } else {
      assert (a + b)[1..] == a[1..] + b;
      if (a[0].start, a[0].end) in run.seen {
        AddRowsConcat(run, a[1..], b);
      } else {
        AddRowsConcat(run.(
          items := run.items + [MacroItem(run.counter, a[0])],
          counter := run.counter + 1,
          seen := run.seen + {(a[0].start, a[0].end)}), a[1..], b);
      }
    }
  }

  /** Rows depend on nothing a deadline changes. */
  lemma {:induction false} AddRowsAgree(b: Run, u: Run, rows: seq<MacroRow>)
    requires Agree(b, u)
    ensures Agree(AddRows(b, rows), AddRows(u, rows))
    decreases |rows|
  {
    if rows != [] {
      if (rows[0].start, rows[0].end) in b.seen {
        AddRowsAgree(b, u, rows[1..]);
      } else {
        AddRowsAgree(
          b.(items := b.items + [MacroItem(b.counter, rows[0])], counter := b.counter + 1,
             seen := b.seen + {(rows[0].start, rows[0].end)}),
          u.(items := u.items + [MacroItem(u.counter, rows[0])], counter := u.counter + 1,
             seen := u.seen + {(rows[0].start, rows[0].end)}), rows[1..]);
      }
    }
  }

  lemma AddFewerRows(b: Run, u: Run, rows: seq<MacroRow>, kept: nat)
    requires Agree(b, u) && kept <= |rows|
    ensures AddRows(b, rows[..kept]).items <= AddRows(u, rows).items
  {
    assert rows[..kept] + rows[kept..] == rows;
    AddRowsAgree(b, u, rows[..kept]);
    AddRowsConcat(u, rows[..kept], rows[kept..]);
    AddRowsGrown(AddRows(u, rows[..kept]), rows[kept..]);
  }

  lemma RecoveredUnderDeadline(input: WalkInput, late: Deadline, node: Tree, site: CallSite, b: Run, u: Run)
    requires Steady(late) && Agree(b, u) && !b.overflow
    ensures var rb, ru := EmitRecovered(input, late, node, site, b), EmitRecovered(input, Unbounded(late), node, site, u);
            || (Agree(rb, ru) && rb.timedOut == b.timedOut && rb.stopped == b.stopped)
            || (CutShort(late, rb, ru) && rb.stopped == b.stopped)
  {
    var scan := ScanMacro(input, late, node, site.caller, b.readings);
    var full := ScanMacro(input, Unbounded(late), node, site.caller, u.readings);
    ScanUnderDeadline(input, late, Unbounded(late), node, site.caller, b.readings, u.readings);
    AddRowsFrame(b, scan.rows);
    AddRowsFrame(u, full.rows);
    if scan.timedOut {
      AddFewerRows(b, u, full.rows, |scan.rows|);
      assert full.rows[..|scan.rows|] == scan.rows;
    } else {
      AddRowsAgree(b, u, full.rows);
    }
  }

  /** Either nothing was cut and the runs agree, or the run under the deadline is a prefix. */
  predicate PrefixOrSame(late: Deadline, b: Run, u: Run) {
    (Agree(b, u) && !b.timedOut) || CutShort(late, b, u)
  }

  lemma CallUnderDeadline(input: WalkInput, late: Deadline, node: Tree, caller: Caller, b: Run, u: Run)
    requires Steady(late) && Agree(b, u) && !Ended(b) && !Ended(u) && !b.timedOut
    ensures var rb, ru := VisitCall(input, late, node, caller, b), VisitCall(input, Unbounded(late), node, caller, u);
            PrefixOrSame(late, rb, ru) && !rb.stopped
  {
    if IsCallKind(node.kind) {
      match CallParts(node, input.source, node.kind.MacroInvocation?, caller) {
        case Err(_) =>
        case Ok(site) =>
          var db, du := EmitDirect(input, node, site, b), EmitDirect(input, node, site, u);
          assert Agree(db, du) && !db.timedOut && !db.stopped;
          if !db.overflow && node.kind.MacroInvocation? {
            RecoveredUnderDeadline(input, late, node, site, db, du);
          }
      }
    }
  }

  /** `after` is `before` cut, or not, as it was. */
  predicate CutAlike(before: Run, after: Run) {
    after.timedOut == before.timedOut && after.stopped == before.stopped
  }

  lemma PushAgrees(input: WalkInput, prefix: Prefix, node: Tree, payload: Payload, b: Run, u: Run)
    requires Agree(b, u)
    ensures Agree(Push(input, b, prefix, node, payload), Push(input, u, prefix, node, payload))
    ensures CutAlike(b, Push(input, b, prefix, node, payload))
  {
  }

  lemma BindingCutAlike(input: WalkInput, node: Tree, run: Run)
    ensures CutAlike(run, VisitBinding(input, node, run))
  {
  }

  lemma BindingUnderDeadline(input: WalkInput, node: Tree, b: Run, u: Run)
    requires Agree(b, u)
    ensures Agree(VisitBinding(input, node, b), VisitBinding(input, node, u))
  {
    if BindingKind(node.kind).Some? {
      var name := IdentifierName(node, input.source);
      var binding := BindingKind(node.kind).value;
      if name.Ok? && name.value.Some? {
        PushAgrees(input, binding.1, node, BindingRow(name.value.value, binding.0), b, u);
      }
    }
  }

  lemma ImportCutAlike(input: WalkInput, node: Tree, suppressed: bool, run: Run)
    ensures CutAlike(run, VisitImport(input, node, suppressed, run))
  {
  }

  lemma ImportUnderDeadline(input: WalkInput, node: Tree, suppressed: bool, b: Run, u: Run)
    requires Agree(b, u)
    ensures Agree(VisitImport(input, node, suppressed, b), VisitImport(input, node, suppressed, u))
  {
    if IsImportKind(node.kind) && !suppressed && Sliceable(node, input.source) {
      PushImportAgrees(input, node, ImportPayload(input, TextOf(node, input.source).value), b, u);
    }
  }

  lemma PushImportAgrees(input: WalkInput, node: Tree, payload: Payload, b: Run, u: Run)
    requires Agree(b, u)
    ensures Agree(PushImport(input, b, node, payload), PushImport(input, u, node, payload))
  {
  }

  lemma VisitNodeUnderDeadline(w: Walker, input: WalkInput, late: Deadline, s: Site, b: Run, u: Run)
    requires Steady(late) && Agree(b, u) && !Ended(b) && !Ended(u) && !b.timedOut
    ensures PrefixOrSame(late, VisitNode(w, input, late, s, b), VisitNode(w, input, Unbounded(late), s, u))
    ensures !VisitNode(w, input, late, s, b).stopped
  {
    match w
    case BindingWalker =>
      BindingUnderDeadline(input, s.node, b, u);
      BindingCutAlike(input, s.node, b);
    case ImportWalker =>
      ImportUnderDeadline(input, s.node, Suppressed(s), b, u);
      ImportCutAlike(input, s.node, Suppressed(s), b);
    case CallWalker =>
      CallUnderDeadline(input, late, s.node, EnclosingCaller(s.above, input.source), b, u);
  }

  predicate VisitOutcome(late: Deadline, vb: Run, vu: Run) {
    PrefixOrSame(late, vb, vu) && (vb.stopped ==> vb.timedOut)
  }

  lemma VisitReached(w: Walker, input: WalkInput, late: Deadline, s: Site, b: Run, u: Run, vb: Run, vu: Run)
    requires Steady(late) && Agree(b, u) && !Ended(b) && !Ended(u) && !b.timedOut
    requires vb == if |s.above| >= MAX_WALK_DEPTH then b.(truncated := true) else VisitNode(w, input, late, s, b)
    requires vu == if |s.above| >= MAX_WALK_DEPTH then u.(truncated := true) else VisitNode(w, input, Unbounded(late), s, u)
    ensures VisitOutcome(late, vb, vu)
  {
    if |s.above| < MAX_WALK_DEPTH {
      VisitNodeUnderDeadline(w, input, late, s, b, u);
    }
  }

  /** A visit does what it would without a deadline, unless it is cut before or inside a macro scan. */
  lemma VisitUnderDeadline(w: Walker, input: WalkInput, late: Deadline, s: Site, b: Run, u: Run)
    requires Steady(late) && Agree(b, u) && !Ended(b) && !Ended(u) && !b.timedOut
    ensures VisitOutcome(late, Visit(w, input, late, s, b), Visit(w, input, Unbounded(late), s, u))
  {
    if Spent(late, b.readings) {
      VisitTooLate(w, input, late, s, b, u);
    } else {
      VisitInTime(w, input, late, s, b);
      VisitInTime(w, input, Unbounded(late), s, u);
      VisitReached(w, input, late, s, AfterReading(b), AfterReading(u),
                   Visit(w, input, late, s, b), Visit(w, input, Unbounded(late), s, u));
    }
  }

  /** Without a deadline nothing stops a walk. */
  lemma NothingStopsTheWalk(w: Walker, input: WalkInput, late: Deadline, s: Site, u: Run)
    requires late.budget.None? && !u.stopped
    ensures !Visit(w, input, late, s, u).stopped
  {
    var read := AfterReading(u);
    match w
    case BindingWalker => BindingCutAlike(input, s.node, read);
    case ImportWalker => ImportCutAlike(input, s.node, Suppressed(s), read);
    case CallWalker => CallStaysGoing(input, late, s.node, EnclosingCaller(s.above, input.source), read);
  }

  lemma CallStaysGoing(input: WalkInput, late: Deadline, node: Tree, caller: Caller, u: Run)
    requires !u.stopped
    ensures !VisitCall(input, late, node, caller, u).stopped
  {
    if IsCallKind(node.kind) {
      var parts := CallParts(node, input.source, node.kind.MacroInvocation?, caller);
      if parts.Ok? {
        var direct := EmitDirect(input, node, parts.value, u);
        var scan := ScanMacro(input, late, node, parts.value.caller, direct.readings);
        AddRowsFrame(direct, scan.rows);
      }
    }
  }

  lemma VisitTooLate(w: Walker, input: WalkInput, late: Deadline, s: Site, b: Run, u: Run)
    requires Steady(late) && Agree(b, u) && !Ended(b) && Spent(late, b.readings)
    ensures CutShort(late, Visit(w, input, late, s, b), Visit(w, input, Unbounded(late), s, u))
  {
    SpentStaysSpent(late, b.readings, b.readings + 1);
    VisitGrown(w, input, Unbounded(late), s, u);
  }

  /** Once the deadline is spent a walk stops at its first site and adds nothing. */
  lemma SpentWalkAddsNothing(w: Walker, input: WalkInput, late: Deadline, sites: seq<Site>, run: Run)
    requires Spent(late, run.readings) && !Ended(run) && sites != []
    ensures RunSites(w, input, late, sites, run)
         == run.(readings := run.readings + 1, timedOut := true, stopped := true)
  {
  }

  /** A run that was cut stays cut: whatever sites follow, it adds nothing more. */
  lemma CutStaysCut(w: Walker, input: WalkInput, late: Deadline, sites: seq<Site>, b: Run, u: Run)
    requires Steady(late) && CutShort(late, b, u)
    ensures CutShort(late, RunSites(w, input, late, sites, b), RunSites(w, input, Unbounded(late), sites, u))
  {
    WalkGrown(w, input, Unbounded(late), sites, u);
    if u.overflow {
      OverflowEnds(w, input, Unbounded(late), sites, u);
    } else {
      PrefixTransitive(b.items, u.items, RunSites(w, input, Unbounded(late), sites, u).items);
    }
    if sites != [] && !b.stopped {
      SpentWalkAddsNothing(w, input, late, sites, b);
      SpentStaysSpent(late, b.readings, b.readings + 1);
    }
  }

  lemma OverflowEnds(w: Walker, input: WalkInput, late: Deadline, sites: seq<Site>, u: Run)
    requires u.overflow
    ensures RunSites(w, input, late, sites, u) == u
  {
  }

  /**
   * A walk under a deadline against the same walk without one: either nothing was cut and
   * they agree, or the walk is timed out and holds a prefix of the other's items.
   */
  lemma {:induction false} WalkUnderDeadline(w: Walker, input: WalkInput, late: Deadline, sites: seq<Site>, b: Run, u: Run)
    requires Steady(late) && Agree(b, u) && !b.stopped && !u.stopped && !b.timedOut
    ensures PrefixOrSame(late, RunSites(w, input, late, sites, b), RunSites(w, input, Unbounded(late), sites, u))
    decreases |sites|
  {
    if sites != [] && !b.overflow {
      var vb, vu := Visit(w, input, late, sites[0], b), Visit(w, input, Unbounded(late), sites[0], u);
      VisitUnderDeadline(w, input, late, sites[0], b, u);
      NothingStopsTheWalk(w, input, Unbounded(late), sites[0], u);
      if vb.timedOut {
        CutStaysCut(w, input, late, sites[1..], vb, vu);
      } else {
        WalkUnderDeadline(w, input, late, sites[1..], vb, vu);
      }
    }
  }
}
