/** Which keys of a call walk are skipped: one for each direct row that was dropped, and no other. */
module CallKeys {
  import opened SyntaxTree
  import opened Evidence
  import opened Calls
  import opened MacroScans
  import opened Walks
  import opened WalkFacts

  /** How many of the calls at `sites` have a range that was offered before they are reached. */
  function DroppedCalls(input: WalkInput, sites: seq<Site>, seen: set<(nat, nat)>): nat
    decreases |sites|
  {
    if sites == [] then 0
    else
      var offers := Offers(CallWalker, input, sites[0]);
      (if offers != [] && RangeOf(offers[0]) in seen then 1 else 0)
      + DroppedCalls(input, sites[1..], seen + Ranges(offers))
  }

  /** The keys taken are those of the items entered, and `dropped` others. */
  predicate Skips(run: Run, r: Run, dropped: nat) {
    r.counter - run.counter == |r.items| - |run.items| + dropped
  }

  lemma {:induction false} AddRowsSkipNone(run: Run, rows: seq<MacroRow>)
    ensures Skips(run, AddRows(run, rows), 0)
    decreases |rows|
  {
    if rows != [] {
      if (rows[0].start, rows[0].end) in run.seen {
        AddRowsSkipNone(run, rows[1..]);
      } else {
        AddRowsSkipNone(AddOne(run, rows[0]), rows[1..]);
      }
    }
  }

  lemma EmitCallSkips(input: WalkInput, late: Deadline, node: Tree, site: CallSite, run: Run)
    requires !EmitCall(input, late, node, site, run).overflow
    ensures Skips(run, EmitCall(input, late, node, site, run), if (node.start, node.end) in run.seen then 1 else 0)
  {
    var direct := EmitDirect(input, node, site, run);
    if node.kind.MacroInvocation? {
      AddRowsSkipNone(direct, ScanMacro(input, late, node, site.caller, direct.readings).rows);
    }
  }

  lemma VisitSkips(input: WalkInput, late: Deadline, s: Site, run: Run)
    requires late.budget.None? && !Visit(CallWalker, input, late, s, run).overflow
    ensures var offers := Offers(CallWalker, input, s);
            Skips(run, Visit(CallWalker, input, late, s, run), if offers != [] && RangeOf(offers[0]) in run.seen then 1 else 0)
  {
    VisitInTime(CallWalker, input, late, s, run);
    var caller := EnclosingCaller(s.above, input.source);
    if |s.above| < MAX_WALK_DEPTH && IsCallKind(s.node.kind) {
      match CallParts(s.node, input.source, s.node.kind.MacroInvocation?, caller) {
        case Ok(site) => EmitCallSkips(input, late, s.node, site, AfterReading(run));
        case Err(_) =>
      }
    }
  }

  /** A call whose range was seen before takes a key though its row is dropped; a recovered row takes one only when it is kept. */
  lemma {:induction false} SkippedKeysAreDroppedCalls(input: WalkInput, late: Deadline, sites: seq<Site>, run: Run)
    requires late.budget.None? && !Ended(run) && !RunSites(CallWalker, input, late, sites, run).overflow
    ensures Skips(run, RunSites(CallWalker, input, late, sites, run), DroppedCalls(input, sites, run.seen))
    decreases |sites|
  {
    if sites != [] {
      var next := Visit(CallWalker, input, late, sites[0], run);
      CompleteVisit(CallWalker, input, late, sites[0], run, next);
      VisitSkips(input, late, sites[0], run);
      SkippedKeysAreDroppedCalls(input, late, sites[1..], next);
    }
  }
}
