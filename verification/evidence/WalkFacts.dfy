/** What every run of the tree walkers keeps: exact rows, exact truncation, keys, and cuts. */
module WalkFacts {
  import opened Sequences
  import opened SyntaxTree
  import opened Evidence
  import opened Bindings
  import opened Calls
  import opened MacroScans
  import opened MacroCuts
  import opened Walks

  // ----- the rows a walk is for

  /** An evidence item without its key; a row whose span lies past `u32` has none. */
  datatype Row = Row(start: nat, end: nat, span: Option<SpanAvailability>, payload: Payload)

  /** The row `node` gives. */
  function NodeRow(input: WalkInput, node: Tree, payload: Payload): Row {
    Row(node.start, node.end, NodeSpan(input, node), payload)
  }

  function RangeOf(row: Row): (nat, nat) {
    (row.start, row.end)
  }

  function RowOf(item: EvidenceItem): Row {
    Row(item.start, item.end, Some(item.span), item.payload)
  }

  function RowsOf(items: seq<EvidenceItem>): (r: seq<Row>)
    ensures |r| == |items|
  {
    if items == [] then [] else RowsOf(items[..|items| - 1]) + [RowOf(items[|items| - 1])]
  }

  lemma RowsOfPush(items: seq<EvidenceItem>, item: EvidenceItem)
    ensures RowsOf(items + [item]) == RowsOf(items) + [RowOf(item)]
  {
    assert (items + [item])[..|items|] == items;
  }

  function MacroRowOf(row: MacroRow): Row {
    Row(row.start, row.end, Some(row.span), CallRow(row.site))
  }

  function MacroRowsOf(rows: seq<MacroRow>): (r: seq<Row>)
    ensures |r| == |rows|
  {
    if rows == [] then [] else [MacroRowOf(rows[0])] + MacroRowsOf(rows[1..])
  }

  function BindingOffers(input: WalkInput, node: Tree): seq<Row> {
    match BindingKind(node.kind)
    case None => []
    case Some(binding) =>
      match IdentifierName(node, input.source)
      case Ok(Some(name)) => [NodeRow(input, node, BindingRow(name, binding.0))]
      case _ => []
  }

  function ImportOffers(input: WalkInput, node: Tree, suppressed: bool): seq<Row> {
    if IsImportKind(node.kind) && !suppressed && Sliceable(node, input.source)
    then [NodeRow(input, node, ImportPayload(input, TextOf(node, input.source).value))]
    else []
  }

  function CallOffers(input: WalkInput, node: Tree, caller: Caller): seq<Row> {
    if IsCallKind(node.kind) then
      match CallParts(node, input.source, node.kind.MacroInvocation?, caller)
      case Ok(site) => [NodeRow(input, node, CallRow(site))] + RecoveredRows(input, node, site)
      case Err(_) => []
    else []
  }

  function RecoveredRows(input: WalkInput, node: Tree, site: CallSite): seq<Row> {
    if node.kind.MacroInvocation? then MacroRowsOf(RowsIn(input, node, site.caller).rows) else []
  }

  /** The rows site `s` offers a complete walk of kind `w`. */
  function Offers(w: Walker, input: WalkInput, s: Site): seq<Row> {
    if |s.above| >= MAX_WALK_DEPTH then []
    else
      match w
      case BindingWalker => BindingOffers(input, s.node)
      case ImportWalker => ImportOffers(input, s.node, Suppressed(s))
      case CallWalker => CallOffers(input, s.node, EnclosingCaller(s.above, input.source))
  }

  function AllOffers(w: Walker, input: WalkInput, sites: seq<Site>): seq<Row> {
    if sites == [] then [] else Offers(w, input, sites[0]) + AllOffers(w, input, sites[1..])
  }

  /** The rows whose byte range is neither in `seen` nor offered before. */
  function FirstPerRange(rows: seq<Row>, seen: set<(nat, nat)>): seq<Row>
    decreases |rows|
  {
    if rows == [] then []
    else
      var range := RangeOf(rows[0]);
      if range in seen then FirstPerRange(rows[1..], seen)
      else [rows[0]] + FirstPerRange(rows[1..], seen + {range})
  }

  function Ranges(rows: seq<Row>): set<(nat, nat)> {
    set row | row in rows :: RangeOf(row)
  }

  lemma {:induction false} FirstPerRangeConcat(a: seq<Row>, b: seq<Row>, seen: set<(nat, nat)>)
    ensures FirstPerRange(a + b, seen) == FirstPerRange(a, seen) + FirstPerRange(b, seen + Ranges(a))
    decreases |a|
  {
    if a == [] {
      assert a + b == b && seen + Ranges(a) == seen;
    } else {
      var range := RangeOf(a[0]);
      assert (a + b)[1..] == a[1..] + b;
      assert a == [a[0]] + a[1..];
      RangesCons(a[0], a[1..]);
      if range in seen {
        FirstPerRangeConcat(a[1..], b, seen);
        assert seen + Ranges(a[1..]) == seen + Ranges(a);
      } else {
        FirstPerRangeConcat(a[1..], b, seen + {range});
        assert (seen + {range}) + Ranges(a[1..]) == seen + Ranges(a);
      }
    }
  }

  predicate AllNew(rows: seq<Row>, seen: set<(nat, nat)>) {
    forall row :: row in rows ==> RangeOf(row) !in seen
  }

  predicate DistinctRanges(rows: seq<Row>) {
    forall i, j :: 0 <= i < j < |rows| ==> RangeOf(rows[i]) != RangeOf(rows[j])
  }

  /** At most one row per byte range, and none of a range in `seen`. */
  lemma {:induction false} OneRowPerRange(rows: seq<Row>, seen: set<(nat, nat)>)
    ensures AllNew(FirstPerRange(rows, seen), seen)
    ensures DistinctRanges(FirstPerRange(rows, seen))
    decreases |rows|
  {
    if rows != [] {
      var range := RangeOf(rows[0]);
      if range in seen {
        OneRowPerRange(rows[1..], seen);
      } else {
        OneRowPerRange(rows[1..], seen + {range});
        PrependNew(rows[0], FirstPerRange(rows[1..], seen + {range}), seen);
      }
    }
  }

  lemma PrependNew(row: Row, rows: seq<Row>, seen: set<(nat, nat)>)
    requires RangeOf(row) !in seen && AllNew(rows, seen + {RangeOf(row)}) && DistinctRanges(rows)
    ensures AllNew([row] + rows, seen) && DistinctRanges([row] + rows)
  {
    forall j | 0 < j < |[row] + rows| ensures RangeOf(([row] + rows)[j]) != RangeOf(row) {
      assert ([row] + rows)[j] == rows[j - 1] && rows[j - 1] in rows;
      assert RangeOf(rows[j - 1]) !in seen + {RangeOf(row)};
    }
    forall other | other in rows ensures RangeOf(other) !in seen {
      assert RangeOf(other) !in seen + {RangeOf(row)};
    }
  }

  /** The first offer of a new range is kept, so every offered range is represented. */
  lemma {:induction false} FirstOfferKept(rows: seq<Row>, seen: set<(nat, nat)>, k: nat)
    requires k < |rows| && RangeOf(rows[k]) !in seen
    requires forall j :: 0 <= j < k ==> RangeOf(rows[j]) != RangeOf(rows[k])
    ensures rows[k] in FirstPerRange(rows, seen)
    decreases |rows|
  {
    if k > 0 {
      var range := RangeOf(rows[0]);
      FirstOfferKept(rows[1..], seen, k - 1);
      FirstOfferKept(rows[1..], seen + {range}, k - 1);
    }
  }

  /** The rows a complete walk keeps: calls are one per byte range, the others as offered. */
  function Kept(w: Walker, rows: seq<Row>, seen: set<(nat, nat)>): seq<Row> {
    if w == CallWalker then FirstPerRange(rows, seen) else rows
  }

  function SeenAfter(w: Walker, rows: seq<Row>, seen: set<(nat, nat)>): set<(nat, nat)> {
    if w == CallWalker then seen + Ranges(rows) else seen
  }

  lemma KeptConcat(w: Walker, a: seq<Row>, b: seq<Row>, seen: set<(nat, nat)>)
    ensures Kept(w, a + b, seen) == Kept(w, a, seen) + Kept(w, b, SeenAfter(w, a, seen))
    ensures SeenAfter(w, a + b, seen) == SeenAfter(w, b, SeenAfter(w, a, seen))
  {
    FirstPerRangeConcat(a, b, seen);
    RangesConcat(a, b);
  }

  lemma MacroRangesCons(rows: seq<MacroRow>)
    requires rows != []
    ensures Ranges(MacroRowsOf(rows)) == {RangeOf(MacroRowOf(rows[0]))} + Ranges(MacroRowsOf(rows[1..]))
    ensures MacroRowsOf(rows)[1..] == MacroRowsOf(rows[1..])
  {
    RangesCons(MacroRowOf(rows[0]), MacroRowsOf(rows[1..]));
  }

  lemma RangesCons(row: Row, rows: seq<Row>)
    ensures Ranges([row] + rows) == {RangeOf(row)} + Ranges(rows)
  {
    forall other | other in rows ensures RangeOf(other) in Ranges([row] + rows) {
      assert other in [row] + rows;
    }
    assert row in [row] + rows;
  }

  lemma RangesConcat(a: seq<Row>, b: seq<Row>)
    ensures Ranges(a + b) == Ranges(a) + Ranges(b)
  {
    forall row | row in a || row in b ensures RangeOf(row) in Ranges(a + b) {
      assert row in a + b;
    }
  }

  /** What `AddRows` may change. */
  predicate OnlyRows(before: Run, after: Run) {
    after == before.(items := after.items, counter := after.counter, seen := after.seen)
  }

  function AddOne(run: Run, row: MacroRow): Run {
    run.(
      items := run.items + [MacroItem(run.counter, row)],
      counter := run.counter + 1,
      seen := run.seen + {(row.start, row.end)})
  }

  /** What entering `rows` leaves behind. */
  predicate RowsEntered(run: Run, rows: seq<Row>, r: Run) {
    && RowsOf(r.items) == RowsOf(run.items) + FirstPerRange(rows, run.seen)
    && r.seen == run.seen + Ranges(rows)
    && OnlyRows(run, r)
  }

  lemma {:induction false} AddRowsKeeps(run: Run, rows: seq<MacroRow>)
    ensures RowsEntered(run, MacroRowsOf(rows), AddRows(run, rows))
    decreases |rows|
  {
    if rows == [] {
      assert Ranges([]) == {};
    } else {
      MacroRangesCons(rows);
      if (rows[0].start, rows[0].end) in run.seen {
        AddRowsKeeps(run, rows[1..]);
      } else {
        AddRowsKeeps(AddOne(run, rows[0]), rows[1..]);
        NewRowEntered(run, rows[0], MacroRowsOf(rows[1..]), AddRows(AddOne(run, rows[0]), rows[1..]));
      }
    }
  }

  lemma NewRowEntered(run: Run, row: MacroRow, later: seq<Row>, r: Run)
    requires (row.start, row.end) !in run.seen && RowsEntered(AddOne(run, row), later, r)
    ensures RowsEntered(run, [MacroRowOf(row)] + later, r)
  {
    RangesCons(MacroRowOf(row), later);
    RowsOfPush(run.items, MacroItem(run.counter, row));
    assert ([MacroRowOf(row)] + later)[1..] == later;
    ConcatAssociative(RowsOf(run.items), [MacroRowOf(row)], FirstPerRange(later, AddOne(run, row).seen));
  }

  lemma EmitDirectKeeps(input: WalkInput, node: Tree, site: CallSite, run: Run)
    requires !EmitDirect(input, node, site, run).overflow
    ensures var direct := EmitDirect(input, node, site, run);
            var row := [NodeRow(input, node, CallRow(site))];
            && RowsOf(direct.items) == RowsOf(run.items) + FirstPerRange(row, run.seen)
            && direct.seen == run.seen + Ranges(row)
            && OnlyRows(run, direct)
  {
    var row := NodeRow(input, node, CallRow(site));
    OneOffer(row, run.seen);
    if NodeSpan(input, node).Some? {
      RowsOfPush(run.items, NewItem(run, CallKey, node, NodeSpan(input, node).value, CallRow(site)));
    }
  }

  lemma OneOffer(row: Row, seen: set<(nat, nat)>)
    ensures Ranges([row]) == {RangeOf(row)}
    ensures FirstPerRange([row], seen) == if RangeOf(row) in seen then [] else [row]
  {
  }

  lemma EmitRecoveredKeeps(input: WalkInput, late: Deadline, node: Tree, site: CallSite, run: Run)
    requires late.budget.None? && !EmitRecovered(input, late, node, site, run).overflow
    ensures var r := EmitRecovered(input, late, node, site, run);
            var full := RowsIn(input, node, site.caller);
            && RowsOf(r.items) == RowsOf(run.items) + FirstPerRange(MacroRowsOf(full.rows), run.seen)
            && r.seen == run.seen + Ranges(MacroRowsOf(full.rows))
            && r.timedOut == run.timedOut && r.stopped == run.stopped
            && r.truncated == (run.truncated || full.capped)
  {
    FreeScan(input, late, node, site.caller, run.readings);
    AddRowsKeeps(run, RowsIn(input, node, site.caller).rows);
  }

  lemma EmitCallKeeps(input: WalkInput, late: Deadline, node: Tree, site: CallSite, run: Run)
    requires late.budget.None? && !EmitCall(input, late, node, site, run).overflow
    ensures var r := EmitCall(input, late, node, site, run);
            var rows := [NodeRow(input, node, CallRow(site))] + RecoveredRows(input, node, site);
            && RowsOf(r.items) == RowsOf(run.items) + FirstPerRange(rows, run.seen)
            && r.seen == run.seen + Ranges(rows)
            && r.timedOut == run.timedOut && r.stopped == run.stopped
            && r.truncated == (run.truncated ||
                 (node.kind.MacroInvocation? && RowsIn(input, node, site.caller).capped))
  {
    var direct := EmitDirect(input, node, site, run);
    var row, found := [NodeRow(input, node, CallRow(site))], RecoveredRows(input, node, site);
    EmitDirectKeeps(input, node, site, run);
    KeptConcat(CallWalker, row, found, run.seen);
    if node.kind.MacroInvocation? {
      EmitRecoveredKeeps(input, late, node, site, direct);
      ConcatAssociative(RowsOf(run.items), FirstPerRange(row, run.seen), FirstPerRange(found, direct.seen));
    } else {
      assert row + found == row;
    }
  }

  // ----- exact truncation

  predicate BindingCut(input: WalkInput, node: Tree) {
    BindingKind(node.kind).Some? && IdentifierName(node, input.source).Err?
  }

  predicate ImportCut(input: WalkInput, node: Tree, suppressed: bool) {
    IsImportKind(node.kind) && !suppressed && !Sliceable(node, input.source)
  }

  predicate CallCut(input: WalkInput, node: Tree, caller: Caller) {
    IsCallKind(node.kind) &&
    match CallParts(node, input.source, node.kind.MacroInvocation?, caller)
    case Err(_) => true
    case Ok(site) => node.kind.MacroInvocation? && RowsIn(input, node, site.caller).capped
  }

  /** Whether visiting `s` cuts something off: the depth bound, a failed slice, or a capped macro scan. */
  predicate CutsOff(w: Walker, input: WalkInput, s: Site) {
    if |s.above| >= MAX_WALK_DEPTH then true
    else
      match w
      case BindingWalker => BindingCut(input, s.node)
      case ImportWalker => ImportCut(input, s.node, Suppressed(s))
      case CallWalker => CallCut(input, s.node, EnclosingCaller(s.above, input.source))
  }

  lemma CompleteBindingVisit(input: WalkInput, node: Tree, run: Run)
    requires !VisitBinding(input, node, run).overflow
    ensures var r := VisitBinding(input, node, run);
            && RowsOf(r.items) == RowsOf(run.items) + BindingOffers(input, node)
            && r.seen == run.seen && r.timedOut == run.timedOut && r.stopped == run.stopped
            && r.truncated == (run.truncated || BindingCut(input, node))
  {
    match BindingKind(node.kind) {
      case None =>
      case Some(binding) =>
        match IdentifierName(node, input.source) {
          case Ok(None) =>
          case Err(_) =>
          case Ok(Some(name)) =>
            RowsOfPush(run.items, NewItem(run, binding.1, node, NodeSpan(input, node).value, BindingRow(name, binding.0)));
        }
    }
  }

  lemma CompleteImportVisit(input: WalkInput, node: Tree, suppressed: bool, run: Run)
    requires !VisitImport(input, node, suppressed, run).overflow
    ensures var r := VisitImport(input, node, suppressed, run);
            && RowsOf(r.items) == RowsOf(run.items) + ImportOffers(input, node, suppressed)
            && r.seen == run.seen && r.timedOut == run.timedOut && r.stopped == run.stopped
            && r.truncated == (run.truncated || ImportCut(input, node, suppressed))
  {
    if IsImportKind(node.kind) && !suppressed && Sliceable(node, input.source) {
      var payload := ImportPayload(input, TextOf(node, input.source).value);
      RowsOfPush(run.items, NewItem(run, GenericImportKey, node, NodeSpan(input, node).value, payload));
    }
  }

  lemma CompleteCallVisit(input: WalkInput, late: Deadline, node: Tree, caller: Caller, run: Run)
    requires late.budget.None? && !VisitCall(input, late, node, caller, run).overflow
    ensures var r := VisitCall(input, late, node, caller, run);
            && RowsOf(r.items) == RowsOf(run.items) + FirstPerRange(CallOffers(input, node, caller), run.seen)
            && r.seen == run.seen + Ranges(CallOffers(input, node, caller))
            && r.timedOut == run.timedOut && r.stopped == run.stopped
            && r.truncated == (run.truncated || CallCut(input, node, caller))
  {
    if IsCallKind(node.kind) {
      match CallParts(node, input.source, node.kind.MacroInvocation?, caller) {
        case Ok(site) => EmitCallKeeps(input, late, node, site, run);
        case Err(_) => assert Ranges([]) == {};
      }
    } else {
      assert Ranges([]) == {};
    }
  }

  /** What a complete visit leaves behind. */
  predicate VisitComplete(w: Walker, input: WalkInput, s: Site, run: Run, r: Run) {
    && RowsOf(r.items) == RowsOf(run.items) + Kept(w, Offers(w, input, s), run.seen)
    && r.seen == SeenAfter(w, Offers(w, input, s), run.seen)
    && r.truncated == (run.truncated || CutsOff(w, input, s))
    && r.timedOut == run.timedOut && !r.stopped
  }

  lemma CompleteVisitNode(w: Walker, input: WalkInput, late: Deadline, s: Site, run: Run)
    requires late.budget.None? && |s.above| < MAX_WALK_DEPTH
    requires !run.stopped && !VisitNode(w, input, late, s, run).overflow
    ensures VisitComplete(w, input, s, run, VisitNode(w, input, late, s, run))
  {
    match w
    case BindingWalker => CompleteBindingVisit(input, s.node, run);
    case ImportWalker => CompleteImportVisit(input, s.node, Suppressed(s), run);
    case CallWalker => CompleteCallVisit(input, late, s.node, EnclosingCaller(s.above, input.source), run);
  }

  lemma CompleteCut(w: Walker, input: WalkInput, s: Site, run: Run)
    requires |s.above| >= MAX_WALK_DEPTH && !run.stopped
    ensures VisitComplete(w, input, s, run, TooDeep(run))
  {
    assert Ranges([]) == {};
  }

  /** One visit of a walk with no deadline and no error. */
  lemma CompleteVisit(w: Walker, input: WalkInput, late: Deadline, s: Site, run: Run, next: Run)
    requires late.budget.None? && !Ended(run) && next == Visit(w, input, late, s, run) && !next.overflow
    ensures VisitComplete(w, input, s, run, next)
  {
    VisitInTime(w, input, late, s, run);
    if |s.above| >= MAX_WALK_DEPTH {
      CompleteCut(w, input, s, run);
    } else {
      var read := AfterReading(run);
      CompleteVisitNode(w, input, late, s, read);
      SameButForReadings(w, input, s, run, read, next);
    }
  }

  lemma SameButForReadings(w: Walker, input: WalkInput, s: Site, run: Run, read: Run, r: Run)
    requires read == run.(readings := read.readings) && VisitComplete(w, input, s, read, r)
    ensures VisitComplete(w, input, s, run, r)
  {
  }

  /** What a complete walk over `sites` leaves behind. */
  predicate WalkComplete(w: Walker, input: WalkInput, sites: seq<Site>, run: Run, r: Run) {
    && RowsOf(r.items) == RowsOf(run.items) + Kept(w, AllOffers(w, input, sites), run.seen)
    && r.seen == SeenAfter(w, AllOffers(w, input, sites), run.seen)
    && (r.truncated <==> run.truncated || exists s :: s in sites && CutsOff(w, input, s))
    && r.timedOut == run.timedOut && !r.stopped
  }

  /**
   * A walk with no deadline and no error: its rows are exactly those the sites offer, in
   * walk order (for calls the first of each byte range), and it reports truncation exactly
   * when some site cut something off.
   */
  lemma {:induction false} CompleteWalk(w: Walker, input: WalkInput, late: Deadline, sites: seq<Site>, run: Run)
    requires late.budget.None? && !Ended(run) && !RunSites(w, input, late, sites, run).overflow
    ensures WalkComplete(w, input, sites, run, RunSites(w, input, late, sites, run))
    decreases |sites|
  {
    if sites == [] {
      assert Ranges([]) == {};
    } else {
      var next := Visit(w, input, late, sites[0], run);
      CompleteVisit(w, input, late, sites[0], run, next);
      CompleteWalk(w, input, late, sites[1..], next);
      CompleteStep(w, input, sites, run, next, RunSites(w, input, late, sites[1..], next));
    }
  }

  lemma CompleteStep(w: Walker, input: WalkInput, sites: seq<Site>, run: Run, next: Run, r: Run)
    requires sites != [] && VisitComplete(w, input, sites[0], run, next)
    requires WalkComplete(w, input, sites[1..], next, r)
    ensures WalkComplete(w, input, sites, run, r)
  {
    var first, later := Offers(w, input, sites[0]), AllOffers(w, input, sites[1..]);
    KeptConcat(w, first, later, run.seen);
    ConcatAssociative(RowsOf(run.items), Kept(w, first, run.seen), Kept(w, later, next.seen));
    assert sites == [sites[0]] + sites[1..];
    assert (exists s :: s in sites && CutsOff(w, input, s))
      <==> CutsOff(w, input, sites[0]) || exists s :: s in sites[1..] && CutsOff(w, input, s);
  }
}
