/** What the three tree walkers do at each site, and their runs over a sequence of sites. */
module Walks {
  import opened Sequences
  import opened SyntaxTree
  import opened Evidence
  import opened Bindings
  import opened Calls
  import opened MacroScans

  /** A node that is a whole import statement, in any grammar. */
  predicate IsImportKind(kind: Kind) {
    kind.ImportStatement? || kind.ImportFromStatement? || kind.ImportDeclaration? ||
    kind.ImportHeader? || kind.UsingDirective? || kind.UsingStatement? || kind.ImportDirective? ||
    kind.ImportSpecification? || kind.LibraryImport? || kind.UseStatement? ||
    kind.NamespaceUseDeclaration? || kind.PreprocInclude? || kind.OpenModule? ||
    kind.PpIncludeLib? || kind.ImportNode?
  }

  datatype Walker = BindingWalker | ImportWalker | CallWalker

  /**
   * The state of a walk: what it has extracted, its key counter and the call ranges seen,
   * the number of clock readings so far, and why it ended early.
   */
  datatype Run = Run(
    items: seq<EvidenceItem>, truncated: bool, timedOut: bool,
    counter: nat, seen: set<(nat, nat)>, readings: nat,
    overflow: bool, stopped: bool)

  predicate Ended(run: Run) {
    run.stopped || run.overflow
  }

  function NewItem(run: Run, prefix: Prefix, node: Tree, span: SpanAvailability, payload: Payload): EvidenceItem {
    EvidenceItem(Key(prefix, run.counter), node.start, node.end, span, payload)
  }

  /** Pushes an item under the next key; a span past `u32` ends the run with an error. */
  function Push(input: WalkInput, run: Run, prefix: Prefix, node: Tree, payload: Payload): Run {
    match NodeSpan(input, node)
    case None => run.(overflow := true)
    case Some(span) =>
      run.(items := run.items + [NewItem(run, prefix, node, span, payload)], counter := run.counter + 1)
  }

  function VisitBinding(input: WalkInput, node: Tree, run: Run): Run {
    match BindingKind(node.kind)
    case None => run
    case Some(binding) =>
      match IdentifierName(node, input.source)
      case Ok(Some(name)) => Push(input, run, binding.1, node, BindingRow(name, binding.0))
      case Ok(None) => run
      case Err(_) => run.(truncated := true)
  }

  const STAR: byte := 42

  function ImportPayload(input: WalkInput, text: Text): Payload {
    ImportRow(input.trim(text), STAR in input.trim(text))
  }

  /** As `Push`, but the key is taken before the span is checked. */
  function PushImport(input: WalkInput, run: Run, node: Tree, payload: Payload): Run {
    var keyed := run.(counter := run.counter + 1);
    match NodeSpan(input, node)
    case None => keyed.(overflow := true)
    case Some(span) => keyed.(items := run.items + [NewItem(run, GenericImportKey, node, span, payload)])
  }

  function VisitImport(input: WalkInput, node: Tree, suppressed: bool, run: Run): Run {
    if IsImportKind(node.kind) && !suppressed then
      match TextOf(node, input.source)
      case Ok(text) => PushImport(input, run, node, ImportPayload(input, text))
      case Err(_) => run.(truncated := true)
    else run
  }

  /** A part of a larger import: its direct parent is import-shaped too. */
  predicate Suppressed(s: Site) {
    s.above != [] && IsImportKind(s.above[|s.above| - 1].kind) && IsImportKind(s.node.kind)
  }

  function MacroItem(counter: nat, row: MacroRow): EvidenceItem {
    EvidenceItem(Key(CallKey, counter), row.start, row.end, row.span, CallRow(row.site))
  }

  /** Recovered rows enter in order, the first of a byte range only; a dropped one takes no key. */
  function AddRows(run: Run, rows: seq<MacroRow>): Run
    decreases |rows|
  {
    if rows == [] then run
    else if (rows[0].start, rows[0].end) in run.seen then AddRows(run, rows[1..])
    else
      AddRows(run.(
        items := run.items + [MacroItem(run.counter, rows[0])],
        counter := run.counter + 1,
        seen := run.seen + {(rows[0].start, rows[0].end)}), rows[1..])
  }

  /** The direct row of a call; its key is taken even when its range was seen before. */
  function EmitDirect(input: WalkInput, node: Tree, site: CallSite, run: Run): Run {
    var keyed := run.(counter := run.counter + 1);
    if (node.start, node.end) in run.seen then keyed
    else
      var marked := keyed.(seen := run.seen + {(node.start, node.end)});
      match NodeSpan(input, node)
      case None => marked.(overflow := true)
      case Some(span) => marked.(items := run.items + [NewItem(run, CallKey, node, span, CallRow(site))])
  }

  /** What a macro's scan adds to the walk that met it. */
  function AddScan(run: Run, scan: Scan): Run {
    if scan.overflow then run.(overflow := true, readings := scan.readings)
    else
      var added := AddRows(run, scan.rows);
      added.(
        truncated := run.truncated || scan.capped,
        timedOut := run.timedOut || scan.timedOut,
        readings := scan.readings)
  }

  function EmitRecovered(input: WalkInput, late: Deadline, node: Tree, site: CallSite, run: Run): Run {
    AddScan(run, ScanMacro(input, late, node, site.caller, run.readings))
  }

  function EmitCall(input: WalkInput, late: Deadline, node: Tree, site: CallSite, run: Run): Run {
    var direct := EmitDirect(input, node, site, run);
    if direct.overflow || !node.kind.MacroInvocation? then direct
    else EmitRecovered(input, late, node, site, direct)
  }

  function VisitCall(input: WalkInput, late: Deadline, node: Tree, caller: Caller, run: Run): Run {
    if IsCallKind(node.kind) then
      match CallParts(node, input.source, node.kind.MacroInvocation?, caller)
      case Ok(site) => EmitCall(input, late, node, site, run)
      case Err(_) => run.(truncated := true)
    else run
  }

  /** What `w` does with a site it reaches in time and above the cut. */
  function VisitNode(w: Walker, input: WalkInput, late: Deadline, s: Site, run: Run): Run {
    match w
    case BindingWalker => VisitBinding(input, s.node, run)
    case ImportWalker => VisitImport(input, s.node, Suppressed(s), run)
    case CallWalker => VisitCall(input, late, s.node, EnclosingCaller(s.above, input.source), run)
  }

  function AfterReading(run: Run): Run {
    run.(readings := run.readings + 1)
  }

  function OutOfTime(run: Run): Run {
    AfterReading(run).(timedOut := true, stopped := true)
  }

  function TooDeep(run: Run): Run {
    AfterReading(run).(truncated := true)
  }

  /** One pop: the deadline is read first, then the depth is checked, then the node is visited. */
  function Visit(w: Walker, input: WalkInput, late: Deadline, s: Site, run: Run): Run {
    if Spent(late, run.readings) then OutOfTime(run)
    else if |s.above| >= MAX_WALK_DEPTH then TooDeep(run)
    else VisitNode(w, input, late, s, AfterReading(run))
  }

  /** A pop that the deadline lets through. */
  lemma VisitInTime(w: Walker, input: WalkInput, late: Deadline, s: Site, run: Run)
    requires !Spent(late, run.readings)
    ensures Visit(w, input, late, s, run) ==
            if |s.above| >= MAX_WALK_DEPTH then TooDeep(run) else VisitNode(w, input, late, s, AfterReading(run))
  {
  }

  /** A run over `sites`, until it ends. */
  function RunSites(w: Walker, input: WalkInput, late: Deadline, sites: seq<Site>, run: Run): Run
    decreases |sites|
  {
    if sites == [] || Ended(run) then run
    else RunSites(w, input, late, sites[1..], Visit(w, input, late, sites[0], run))
  }

  /** The walk `w` makes of `tree`. */
  function WalkOf(w: Walker, input: WalkInput, late: Deadline, tree: Tree, run: Run): Run {
    RunSites(w, input, late, PreOrder(Root(tree)), run)
  }

  lemma {:induction false} RunSitesConcat(w: Walker, input: WalkInput, late: Deadline, a: seq<Site>, b: seq<Site>, run: Run)
    ensures RunSites(w, input, late, a + b, run) == RunSites(w, input, late, b, RunSites(w, input, late, a, run))
    decreases |a|
  {
    if a == [] {
      assert a + b == b;
    } else if !Ended(run) {
      RunSitesConcat(w, input, late, a[1..], b, Visit(w, input, late, a[0], run));
      assert (a + b)[1..] == a[1..] + b;
    }
  }

  /** The walk a recursive walker makes: visit, then descend into each named child. */
  function Recursive(w: Walker, input: WalkInput, late: Deadline, s: Site, run: Run): Run
    requires |s.above| <= MAX_WALK_DEPTH
    decreases MAX_WALK_DEPTH - |s.above|, 0
  {
    if Ended(run) then run
    else
      var visited := Visit(w, input, late, s, run);
      if |s.above| == MAX_WALK_DEPTH then visited else RecursiveKids(w, input, late, s, 0, visited)
  }

  function RecursiveKids(w: Walker, input: WalkInput, late: Deadline, s: Site, i: nat, run: Run): Run
    requires |s.above| < MAX_WALK_DEPTH && i <= |Kids(s.node)|
    decreases MAX_WALK_DEPTH - |s.above| - 1, 1 + |Kids(s.node)| - i
  {
    if i == |Kids(s.node)| then run
    else RecursiveKids(w, input, late, s, i + 1, Recursive(w, input, late, Child(s, i), run))
  }

  lemma {:induction false} DescentIsRecursive(w: Walker, input: WalkInput, late: Deadline, s: Site, run: Run)
    requires |s.above| <= MAX_WALK_DEPTH
    ensures RunSites(w, input, late, PreOrder(s), run) == Recursive(w, input, late, s, run)
    decreases MAX_WALK_DEPTH - |s.above|, 0
  {
    var visited := Visit(w, input, late, s, run);
    assert PreOrder(s)[0] == s;
    if !Ended(run) {
      if |s.above| < MAX_WALK_DEPTH {
        assert PreOrder(s)[1..] == Siblings(s, 0);
        SiblingsAreRecursive(w, input, late, s, 0, visited);
      } else {
        assert PreOrder(s)[1..] == [];
      }
    }
  }

  lemma {:induction false} SiblingsAreRecursive(w: Walker, input: WalkInput, late: Deadline, s: Site, i: nat, run: Run)
    requires |s.above| < MAX_WALK_DEPTH && i <= |Kids(s.node)|
    ensures RunSites(w, input, late, Siblings(s, i), run) == RecursiveKids(w, input, late, s, i, run)
    decreases MAX_WALK_DEPTH - |s.above| - 1, 1 + |Kids(s.node)| - i
  {
    if i < |Kids(s.node)| {
      RunSitesConcat(w, input, late, PreOrder(Child(s, i)), Siblings(s, i + 1), run);
      DescentIsRecursive(w, input, late, Child(s, i), run);
      SiblingsAreRecursive(w, input, late, s, i + 1, Recursive(w, input, late, Child(s, i), run));
    }
  }

  /** A stack walk makes the recursive walk, under any deadline and up to any error. */
  lemma WalkIsRecursive(w: Walker, input: WalkInput, late: Deadline, tree: Tree, run: Run)
    ensures WalkOf(w, input, late, tree, run) == Recursive(w, input, late, Root(tree), run)
  {
    DescentIsRecursive(w, input, late, Root(tree), run);
  }
}
