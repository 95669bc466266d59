/** Calls hidden in a macro's token tree: its text re-parsed as an argument list, and walked. */
module MacroScans {
  import opened Sequences
  import opened SyntaxTree
  import opened Evidence
  import opened Calls

  /** How many macros may nest before their fragments are no longer re-parsed. */
  const MAX_MACRO_DEPTH: nat := 64

  function Wrapped(frame: Frame, body: Text): Text {
    frame.prefix + body + frame.suffix
  }

  /**
   * A re-parsed piece of the source: the text that was parsed and the frame in it, where the
   * piece lies, and the number of macros around it.
   */
  datatype Fragment = Fragment(wrapped: Text, frame: Frame, start: nat, end: nat, macroDepth: nat)

  /** A node of a fragment's tree that is still to be visited. */
  datatype Pending = Pending(node: Tree, fragment: Fragment, depth: nat, caller: Caller)

  /** What a scan has found so far, the clock readings it has made, and why it ended early. */
  datatype Scan = Scan(
    rows: seq<MacroRow>, capped: bool, timedOut: bool, overflow: bool, stopped: bool, readings: nat)

  predicate ScanEnded(scan: Scan) {
    scan.stopped || scan.overflow
  }

  function FreshScan(reading: nat): Scan {
    Scan([], false, false, false, false, reading)
  }

  // ----- one node

  function Minus(a: nat, b: nat): nat {
    if a < b then 0 else a - b
  }

  /** The node lies in the macro's own text, not in the frame around it. */
  predicate InFrame(node: Tree, fragment: Fragment) {
    node.start >= |fragment.frame.prefix| && node.end <= Minus(|fragment.wrapped|, |fragment.frame.suffix|)
  }

  /** An offset of the synthetic text in the source. */
  function SourceOffset(fragment: Fragment, offset: nat): nat {
    Minus(fragment.start + offset, |fragment.frame.prefix|)
  }

  function FirstTokens(nodes: seq<Tree>): Option<Tree> {
    if nodes == [] then None
    else if nodes[0].kind.TokenTree? then Some(nodes[0])
    else FirstTokens(nodes[1..])
  }

  /** What one call of a fragment gives: a row, nothing, a slice that failed, or a position past `u32`. */
  datatype RowResult = Emits(row: MacroRow) | NoRow | BadText | PastRange

  function Fits(p: Position): bool {
    p.line <= U32_MAX && p.column <= U32_MAX
  }

  function FragmentSite(x: Pending, callee: Tree, text: Text, name: Option<Text>): Option<CallSite> {
    match QualifiedCallee(callee, x.fragment.wrapped)
    case Err(_) => None
    case Ok(qualified) =>
      match x.caller
      case Err(_) => None
      case Ok(caller) =>
        Some(CallSite(
          text, if name.Some? then name.value else TrimEndBangs(text), caller, x.node.kind.MacroInvocation?, qualified))
  }

  function FragmentRow(input: WalkInput, x: Pending): RowResult {
    var start, end := SourceOffset(x.fragment, x.node.start), SourceOffset(x.fragment, x.node.end);
    if end > x.fragment.end then NoRow
    else
      match CalleeNode(x.node, x.node.kind.MacroInvocation?)
      case None => NoRow
      case Some(callee) =>
        match TextOf(callee, x.fragment.wrapped)
        case Err(_) => BadText
        case Ok(text) =>
          match SimpleName(callee, x.fragment.wrapped)
          case Err(_) => BadText
          case Ok(name) =>
            if !Fits(input.position(start)) || !Fits(input.position(end)) then PastRange
            else
              match FragmentSite(x, callee, text, name)
              case None => BadText
              case Some(site) =>
                Emits(MacroRow(start, end, CheckedSpan(start, end, input.position(start), input.position(end)), site))
  }

  /** The caller below a node; the frame's own function never counts. */
  function FragmentCaller(x: Pending): Caller {
    if InFrame(x.node, x.fragment) then CallerBelow(x.node, x.fragment.wrapped, x.caller) else x.caller
  }

  function Kid(x: Pending, i: nat): Pending
    requires i < |Kids(x.node)|
  {
    Pending(Kids(x.node)[i], x.fragment, x.depth + 1, FragmentCaller(x))
  }

  /** The contents of a macro inside a fragment, in the source, when it has any. */
  function NestedRange(x: Pending): Option<(nat, nat)> {
    if !x.node.kind.MacroInvocation? then None
    else
      match FirstTokens(Kids(x.node))
      case None => None
      case Some(tokens) =>
        var start, end := SourceOffset(x.fragment, tokens.start + 1), SourceOffset(x.fragment, Minus(tokens.end, 1));
        if end <= x.fragment.end && start < end then Some((start, end)) else None
  }

  // ----- fragments

  /** A re-parse from clock reading `reading` on, and the next reading. */
  function Reparsed(input: WalkInput, late: Deadline, text: Text, reading: nat): (Result<Tree, NoTree>, nat) {
    if Spent(late, reading) then (Err(TimedOut), reading + 1)
    else if input.reparse(text).Some? && !(late.budget.Some? && late.cancelsReparse(text, reading))
    then (Ok(input.reparse(text).value), reading + 1)
    else (Err(if Spent(late, reading + 1) then TimedOut else Failed), reading + 2)
  }

  function FragmentRoot(
    frame: Frame, tree: Tree, body: Text, start: nat, end: nat, macroDepth: nat, caller: Caller): Pending
  {
    Pending(tree, Fragment(Wrapped(frame, body), frame, start, end, macroDepth), 0, caller)
  }

  /** Re-parses `source[start..end]`: the root of its tree, or why there is none. */
  function Open(
    input: WalkInput, late: Deadline, start: nat, end: nat, macroDepth: nat, caller: Caller, scan: Scan)
    : (r: (Scan, Option<Pending>))
    ensures r.1.Some? ==> macroDepth < MAX_MACRO_DEPTH && r.1.value.fragment.macroDepth == macroDepth && r.1.value.depth == 0
  {
    if macroDepth >= MAX_MACRO_DEPTH then (scan.(capped := true), None)
    else
      match NodeText(input.source, start, end)
      case Err(_) => (scan.(capped := true), None)
      case Ok(body) =>
        var (tree, readings) := Reparsed(input, late, Wrapped(input.frame, body), scan.readings);
        match tree
        case Ok(root) => (scan.(readings := readings), Some(FragmentRoot(input.frame, root, body, start, end, macroDepth, caller)))
        case Err(TimedOut) => (scan.(readings := readings, timedOut := true), None)
        case Err(Failed) => (scan.(readings := readings, capped := true), None)
  }

  // ----- the scan

  /** The row of a node, if it is a call in the frame. */
  function EmitFragmentRow(input: WalkInput, x: Pending, scan: Scan): Scan {
    if InFrame(x.node, x.fragment) && IsCallKind(x.node.kind) then
      match FragmentRow(input, x)
      case Emits(row) => scan.(rows := scan.rows + [row])
      case NoRow => scan
      case BadText => scan.(capped := true)
      case PastRange => scan.(overflow := true)
    else scan
  }

  /** `inner` is the root of a fragment one macro further in. */
  predicate Nests(x: Pending, inner: Pending) {
    && x.fragment.macroDepth + 1 < MAX_MACRO_DEPTH
    && inner.fragment.macroDepth == x.fragment.macroDepth + 1 && inner.depth == 0
  }

  /** A nested macro's own fragment. */
  function OpenNested(input: WalkInput, late: Deadline, x: Pending, scan: Scan): (r: (Scan, Option<Pending>))
    ensures r.1.Some? ==> Nests(x, r.1.value)
  {
    var nested := if InFrame(x.node, x.fragment) then NestedRange(x) else None;
    if scan.overflow || nested.None? then (scan, None)
    else Open(input, late, nested.value.0, nested.value.1, x.fragment.macroDepth + 1, x.caller, scan)
  }

  /** One pop: the deadline is read, the depth is checked; then the row, and what a nested macro opens. */
  function ScanNode(input: WalkInput, late: Deadline, x: Pending, scan: Scan): (r: (Scan, Option<Pending>))
    ensures r.1.Some? ==> Nests(x, r.1.value)
  {
    var read := scan.(readings := scan.readings + 1);
    if Spent(late, scan.readings) then (read.(timedOut := true, stopped := true), None)
    else if x.depth >= MAX_WALK_DEPTH then (read.(capped := true), None)
    else OpenNested(input, late, x, EmitFragmentRow(input, x, read))
  }

  predicate CanScan(x: Pending) {
    x.depth <= MAX_WALK_DEPTH && x.fragment.macroDepth < MAX_MACRO_DEPTH
  }

  /** The scan a recursive walk makes: a node, then what a macro there holds, then its children. */
  function ScanItem(input: WalkInput, late: Deadline, x: Pending, scan: Scan): Scan
    requires CanScan(x)
    decreases MAX_MACRO_DEPTH - x.fragment.macroDepth, MAX_WALK_DEPTH - x.depth, 0
  {
    if ScanEnded(scan) then scan
    else
      var (visited, inner) := ScanNode(input, late, x, scan);
      if x.depth == MAX_WALK_DEPTH then visited
      else ScanKids(input, late, x, 0, if inner.Some? then ScanItem(input, late, inner.value, visited) else visited)
  }

  function ScanKids(input: WalkInput, late: Deadline, x: Pending, i: nat, scan: Scan): Scan
    requires CanScan(x) && x.depth < MAX_WALK_DEPTH && i <= |Kids(x.node)|
    decreases MAX_MACRO_DEPTH - x.fragment.macroDepth, MAX_WALK_DEPTH - x.depth - 1, 1 + |Kids(x.node)| - i
  {
    if i == |Kids(x.node)| then scan else ScanKids(input, late, x, i + 1, ScanItem(input, late, Kid(x, i), scan))
  }

  /** The whole scan of a macro from clock reading `reading` on. */
  function ScanMacro(input: WalkInput, late: Deadline, node: Tree, caller: Option<Text>, reading: nat): Scan {
    match FirstTokens(Kids(node))
    case None => FreshScan(reading)
    case Some(tokens) =>
      var (scan, inner) := Open(input, late, tokens.start + 1, Minus(tokens.end, 1), 0, Ok(caller), FreshScan(reading));
      if inner.Some? then ScanItem(input, late, inner.value, scan) else scan
  }

  /** A deadline that never comes. */
  function Never(): Deadline {
    Deadline(None, _ => 0, false, false, (text, reading) => false)
  }

  /** What a macro yields when nothing cuts its scan short. */
  function RowsIn(input: WalkInput, node: Tree, caller: Option<Text>): MacroRows {
    var scan := ScanMacro(input, Never(), node, caller, 0);
    MacroRows(scan.rows, scan.capped, scan.overflow)
  }
}
