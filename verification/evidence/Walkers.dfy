/** The three walkers as the source runs them: loops over an explicit stack, no recursion. */
module Walkers {
  import opened Sequences
  import opened SyntaxTree
  import opened Evidence
  import opened TreeCursor
  import opened Bindings
  import opened Calls
  import opened MacroWalker
  import opened Walks

  /** The state of a running walk, gathered from the objects it updates. */
  ghost function Now(
    out: Extraction, clock: FileClock, counter: nat, seen: set<(nat, nat)>, overflow: bool, stopped: bool): Run
    reads out, clock
  {
    Run(out.items, out.truncated, out.timedOut, counter, seen, clock.readings, overflow, stopped)
  }

  /** The stack after `s` is popped off `rest + [s]` and visited. */
  function Popped(rest: seq<Site>, s: Site): seq<Site> {
    if |s.above| >= MAX_WALK_DEPTH then rest else rest + Pushed(s, 0)
  }

  lemma TodoStart(tree: Tree)
    ensures IsStack([Root(tree)]) && Todo([Root(tree)]) == PreOrder(Root(tree))
  {
    TodoPush([], Root(tree));
    assert [] + [Root(tree)] == [Root(tree)];
  }

  lemma TodoPopped(stack: seq<Site>)
    requires IsStack(stack) && stack != []
    ensures var rest, s := stack[..|stack| - 1], stack[|stack| - 1];
            && IsStack(Popped(rest, s))
            && Todo(stack) == [s] + Todo(Popped(rest, s))
  {
    var rest, s := stack[..|stack| - 1], stack[|stack| - 1];
    assert s in stack && stack == rest + [s];
    TodoPush(rest, s);
    if |s.above| < MAX_WALK_DEPTH {
      PushedChildrenKeepOrder(rest, s, 0);
    }
  }

  /** One turn of the loop advances the walk by one visit and shortens what is left. */
  lemma Turn(w: Walker, input: WalkInput, late: Deadline, stack: seq<Site>, run: Run)
    requires IsStack(stack) && stack != [] && !Ended(run)
    ensures var rest, s := stack[..|stack| - 1], stack[|stack| - 1];
            && IsStack(Popped(rest, s)) && |Todo(Popped(rest, s))| < |Todo(stack)|
            && RunSites(w, input, late, Todo(stack), run) == RunSites(w, input, late, Todo(Popped(rest, s)), Visit(w, input, late, s, run))
  {
    TodoPopped(stack);
    var rest, s := stack[..|stack| - 1], stack[|stack| - 1];
    assert ([s] + Todo(Popped(rest, s)))[1..] == Todo(Popped(rest, s));
  }

  // ----- bindings

  predicate BindingsMirror(pending: seq<(Tree, nat)>, stack: seq<Site>) {
    |pending| == |stack| && forall k :: 0 <= k < |stack| ==> pending[k] == (stack[k].node, |stack[k].above|)
  }

  method WalkBindings(root: Tree, clock: FileClock, out: Extraction, counter0: nat, ghost seen: set<(nat, nat)>)
    returns (counter: nat, overflow: bool, ghost stopped: bool)
    modifies clock, out
    ensures Now(out, clock, counter, seen, overflow, stopped)
         == WalkOf(BindingWalker, clock.input, clock.late, root, old(Now(out, clock, counter0, seen, false, false)))
  {
    counter, overflow, stopped := counter0, false, false;
    var pending: seq<(Tree, nat)> := [(root, 0)];
    ghost var stack := [Root(root)];
    ghost var goal := WalkOf(BindingWalker, clock.input, clock.late, root, Now(out, clock, counter, seen, false, false));
    TodoStart(root);
    while pending != []
      invariant IsStack(stack) && BindingsMirror(pending, stack)
      invariant !overflow && !stopped
      invariant RunSites(BindingWalker, clock.input, clock.late, Todo(stack), Now(out, clock, counter, seen, overflow, stopped)) == goal
      decreases |Todo(stack)|
    {
      Turn(BindingWalker, clock.input, clock.late, stack, Now(out, clock, counter, seen, overflow, stopped));
      var spent;
      pending, counter, spent, overflow := BindingTurn(pending, clock, out, counter, seen, stack);
      stopped := spent;
      stack := Popped(stack[..|stack| - 1], stack[|stack| - 1]);
      if spent || overflow {
        return;
      }
    }
  }

  /** The body of the loop: pop, read the deadline, check the depth, record, push the children. */
  method BindingTurn(
    pending: seq<(Tree, nat)>, clock: FileClock, out: Extraction, counter0: nat,
    ghost seen: set<(nat, nat)>, ghost stack: seq<Site>)
    returns (pushed: seq<(Tree, nat)>, counter: nat, spent: bool, overflow: bool)
    requires stack != [] && BindingsMirror(pending, stack)
    modifies clock, out
    ensures Now(out, clock, counter, seen, overflow, spent)
         == Visit(BindingWalker, clock.input, clock.late, stack[|stack| - 1], old(Now(out, clock, counter0, seen, false, false)))
    ensures !spent && !overflow ==>
              BindingsMirror(pushed, Popped(stack[..|stack| - 1], stack[|stack| - 1]))
  {
    var (node, depth) := pending[|pending| - 1];
    pushed := pending[..|pending| - 1];
    counter, overflow := counter0, false;
    spent := clock.DeadlineSpent();
    if spent {
      out.timedOut := true;
      return;
    }
    if depth >= MAX_WALK_DEPTH {
      out.truncated := true;
      return;
    }
    counter, overflow := RecordBinding(node, clock, out, counter, seen);
    pushed := PushBindings(pushed, node, depth, stack[..|stack| - 1], stack[|stack| - 1]);
  }

  method PushBindings(pending: seq<(Tree, nat)>, node: Tree, depth: nat, ghost rest: seq<Site>, ghost s: Site)
    returns (pushed: seq<(Tree, nat)>)
    requires BindingsMirror(pending, rest) && s.node == node && |s.above| == depth
    ensures BindingsMirror(pushed, rest + Pushed(s, 0))
  {
    var entry := (child: Tree) => (child, depth + 1);
    pushed := PushChildren(pending, node, entry);
    assert BindingsMirror(Reversed(Mapped(Kids(node), entry)), Pushed(s, 0));
  }

  /** The row of a binding node that has a name, or the truncation when the name does not slice. */
  method RecordBinding(node: Tree, clock: FileClock, out: Extraction, counter0: nat, ghost seen: set<(nat, nat)>)
    returns (counter: nat, overflow: bool)
    modifies out
    ensures Now(out, clock, counter, seen, overflow, false)
         == VisitBinding(clock.input, node, old(Now(out, clock, counter0, seen, false, false)))
  {
    counter, overflow := counter0, false;
    match BindingKind(node.kind) {
      case None =>
      case Some(binding) =>
        match IdentifierName(node, clock.input.source) {
          case Ok(None) =>
          case Err(_) =>
            out.truncated := true;
          case Ok(Some(name)) =>
            match NodeSpan(clock.input, node) {
              case None =>
                overflow := true;
              case Some(span) =>
                var item := EvidenceItem(
                  Key(binding.1, counter), node.start, node.end, span, BindingRow(name, binding.0));
                counter := counter + 1;
                out.items := out.items + [item];
            }
        }
    }
  }

  // ----- imports

  function ImportEntry(s: Site): (Tree, nat, bool) {
    (s.node, |s.above|, Suppressed(s))
  }

  predicate ImportsMirror(pending: seq<(Tree, nat, bool)>, stack: seq<Site>) {
    |pending| == |stack| && forall k :: 0 <= k < |stack| ==> pending[k] == ImportEntry(stack[k])
  }

  method WalkImports(root: Tree, clock: FileClock, out: Extraction, counter0: nat, ghost seen: set<(nat, nat)>)
    returns (counter: nat, overflow: bool, ghost stopped: bool)
    modifies clock, out
    ensures Now(out, clock, counter, seen, overflow, stopped)
         == WalkOf(ImportWalker, clock.input, clock.late, root, old(Now(out, clock, counter0, seen, false, false)))
  {
    counter, overflow, stopped := counter0, false, false;
    var pending: seq<(Tree, nat, bool)> := [(root, 0, false)];
    ghost var stack := [Root(root)];
    ghost var goal := WalkOf(ImportWalker, clock.input, clock.late, root, Now(out, clock, counter, seen, false, false));
    TodoStart(root);
    while pending != []
      invariant IsStack(stack) && ImportsMirror(pending, stack)
      invariant !overflow && !stopped
      invariant RunSites(ImportWalker, clock.input, clock.late, Todo(stack), Now(out, clock, counter, seen, overflow, stopped)) == goal
      decreases |Todo(stack)|
    {
      Turn(ImportWalker, clock.input, clock.late, stack, Now(out, clock, counter, seen, overflow, stopped));
      var spent;
      pending, counter, spent, overflow := ImportTurn(pending, clock, out, counter, seen, stack);
      stopped := spent;
      stack := Popped(stack[..|stack| - 1], stack[|stack| - 1]);
      if spent || overflow {
        return;
      }
    }
  }

  method ImportTurn(
    pending: seq<(Tree, nat, bool)>, clock: FileClock, out: Extraction, counter0: nat,
    ghost seen: set<(nat, nat)>, ghost stack: seq<Site>)
    returns (pushed: seq<(Tree, nat, bool)>, counter: nat, spent: bool, overflow: bool)
    requires stack != [] && ImportsMirror(pending, stack)
    modifies clock, out
    ensures Now(out, clock, counter, seen, overflow, spent)
         == Visit(ImportWalker, clock.input, clock.late, stack[|stack| - 1], old(Now(out, clock, counter0, seen, false, false)))
    ensures !spent && !overflow ==>
              ImportsMirror(pushed, Popped(stack[..|stack| - 1], stack[|stack| - 1]))
  {
    var (node, depth, suppressed) := pending[|pending| - 1];
    pushed := pending[..|pending| - 1];
    counter, overflow := counter0, false;
    spent := clock.DeadlineSpent();
    if spent {
      out.timedOut := true;
      return;
    }
    if depth >= MAX_WALK_DEPTH {
      out.truncated := true;
      return;
    }
    var isImport := IsImportKind(node.kind);
    if isImport && !suppressed {
      counter, overflow := RecordImport(node, clock, out, counter, seen);
    }
    pushed := PushImports(pushed, node, depth, isImport, stack[..|stack| - 1], stack[|stack| - 1]);
  }

  /** Pushes the children of `node`, each with whether it repeats the statement above it. */
  method PushImports(
    pending: seq<(Tree, nat, bool)>, node: Tree, depth: nat, isImport: bool,
    ghost rest: seq<Site>, ghost s: Site)
    returns (pushed: seq<(Tree, nat, bool)>)
    requires ImportsMirror(pending, rest)
    requires s.node == node && |s.above| == depth && isImport == IsImportKind(node.kind)
    ensures ImportsMirror(pushed, rest + Pushed(s, 0))
  {
    var entry := (child: Tree) => (child, depth + 1, isImport && IsImportKind(child.kind));
    pushed := PushChildren(pending, node, entry);
    forall i | 0 <= i < |Kids(node)| ensures entry(Kids(node)[i]) == ImportEntry(Child(s, i)) {
      NestedChild(s, i);
    }
    ChildrenMirror(s, entry);
    MirrorsConcat(pending, rest, Reversed(Mapped(Kids(node), entry)), Pushed(s, 0));
  }

  lemma ChildrenMirror(s: Site, entry: Tree -> (Tree, nat, bool))
    requires forall i :: 0 <= i < |Kids(s.node)| ==> entry(Kids(s.node)[i]) == ImportEntry(Child(s, i))
    ensures ImportsMirror(Reversed(Mapped(Kids(s.node), entry)), Pushed(s, 0))
  {
    var kids, added := Kids(s.node), Reversed(Mapped(Kids(s.node), entry));
    forall k | 0 <= k < |added| ensures added[k] == ImportEntry(Pushed(s, 0)[k]) {
      var i := |kids| - 1 - k;
      assert Mapped(kids, entry)[i] == entry(kids[i]);
      assert Pushed(s, 0)[k] == Child(s, i);
    }
  }

  lemma MirrorsConcat(a: seq<(Tree, nat, bool)>, x: seq<Site>, b: seq<(Tree, nat, bool)>, y: seq<Site>)
    requires ImportsMirror(a, x) && ImportsMirror(b, y)
    ensures ImportsMirror(a + b, x + y)
  {
  }

  lemma NestedChild(s: Site, i: nat)
    requires i < |Kids(s.node)|
    ensures ImportEntry(Child(s, i))
         == (Kids(s.node)[i], |s.above| + 1, IsImportKind(s.node.kind) && IsImportKind(Kids(s.node)[i].kind))
  {
  }

  /** The row of an import statement, or the truncation when its text does not slice. */
  method RecordImport(node: Tree, clock: FileClock, out: Extraction, counter0: nat, ghost seen: set<(nat, nat)>)
    returns (counter: nat, overflow: bool)
    requires IsImportKind(node.kind)
    modifies out
    ensures Now(out, clock, counter, seen, overflow, false)
         == VisitImport(clock.input, node, false, old(Now(out, clock, counter0, seen, false, false)))
  {
    counter, overflow := counter0, false;
    match TextOf(node, clock.input.source) {
      case Err(_) =>
        out.truncated := true;
      case Ok(text) =>
        counter := counter + 1;
        match NodeSpan(clock.input, node) {
          case None =>
            overflow := true;
          case Some(span) =>
            out.items := out.items + [EvidenceItem(
              Key(GenericImportKey, counter0), node.start, node.end, span, ImportPayload(clock.input, text))];
        }
    }
  }

  // ----- calls

  predicate CallsMirror(source: Text, pending: seq<(Tree, nat, Caller)>, stack: seq<Site>) {
    |pending| == |stack| &&
    forall k :: 0 <= k < |stack| ==>
      pending[k] == (stack[k].node, |stack[k].above|, EnclosingCaller(stack[k].above, source))
  }

  method WalkCalls(root: Tree, clock: FileClock, out: Extraction, counter0: nat, seen0: set<(nat, nat)>)
    returns (counter: nat, seen: set<(nat, nat)>, overflow: bool, ghost stopped: bool)
    modifies clock, out
    ensures Now(out, clock, counter, seen, overflow, stopped)
         == WalkOf(CallWalker, clock.input, clock.late, root, old(Now(out, clock, counter0, seen0, false, false)))
  {
    counter, seen, overflow, stopped := counter0, seen0, false, false;
    var pending: seq<(Tree, nat, Caller)> := [(root, 0, Ok(None))];
    ghost var stack := [Root(root)];
    ghost var goal := WalkOf(CallWalker, clock.input, clock.late, root, Now(out, clock, counter, seen, false, false));
    TodoStart(root);
    while pending != []
      invariant IsStack(stack) && CallsMirror(clock.input.source, pending, stack)
      invariant !overflow && !stopped
      invariant RunSites(CallWalker, clock.input, clock.late, Todo(stack), Now(out, clock, counter, seen, overflow, stopped)) == goal
      decreases |Todo(stack)|
    {
      Turn(CallWalker, clock.input, clock.late, stack, Now(out, clock, counter, seen, overflow, stopped));
      var spent;
      pending, counter, seen, spent, overflow := CallTurn(pending, clock, out, counter, seen, stack);
      stopped := spent;
      stack := Popped(stack[..|stack| - 1], stack[|stack| - 1]);
      if spent || overflow {
        return;
      }
    }
  }

  method CallTurn(
    pending: seq<(Tree, nat, Caller)>, clock: FileClock, out: Extraction, counter0: nat,
    seen0: set<(nat, nat)>, ghost stack: seq<Site>)
    returns (pushed: seq<(Tree, nat, Caller)>, counter: nat, seen: set<(nat, nat)>, spent: bool, overflow: bool)
    requires stack != [] && CallsMirror(clock.input.source, pending, stack)
    modifies clock, out
    ensures Now(out, clock, counter, seen, overflow, spent)
         == Visit(CallWalker, clock.input, clock.late, stack[|stack| - 1], old(Now(out, clock, counter0, seen0, false, false)))
    ensures !spent && !overflow ==>
              CallsMirror(clock.input.source, pushed, Popped(stack[..|stack| - 1], stack[|stack| - 1]))
  {
    ghost var s, before := stack[|stack| - 1], Now(out, clock, counter0, seen0, false, false);
    var (node, depth, caller) := pending[|pending| - 1];
    pushed := pending[..|pending| - 1];
    counter, seen, overflow := counter0, seen0, false;
    spent := clock.DeadlineSpent();
    if spent {
      out.timedOut := true;
      return;
    }
    VisitInTime(CallWalker, clock.input, clock.late, s, before);
    assert Now(out, clock, counter, seen, false, false) == AfterReading(before);
    if depth >= MAX_WALK_DEPTH {
      out.truncated := true;
      return;
    }
    counter, seen, overflow := RecordCall(node, caller, clock, out, counter, seen);
    var below := CallerBelow(node, clock.input.source, caller);
    pushed := PushCalls(pushed, node, depth, below, clock.input.source, stack[..|stack| - 1], s);
  }

  /** Pushes the children of `node`, each with the caller that holds below `node`. */
  method PushCalls(
    pending: seq<(Tree, nat, Caller)>, node: Tree, depth: nat, below: Caller,
    ghost source: Text, ghost rest: seq<Site>, ghost s: Site)
    returns (pushed: seq<(Tree, nat, Caller)>)
    requires CallsMirror(source, pending, rest)
    requires s.node == node && |s.above| == depth
    requires below == CallerBelow(node, source, EnclosingCaller(s.above, source))
    ensures CallsMirror(source, pushed, rest + Pushed(s, 0))
  {
    var entry := (child: Tree) => (child, depth + 1, below);
    pushed := PushChildren(pending, node, entry);
    CallerAbove(source, s);
    KidsMirror(source, s, below, entry);
  }

  /** The caller below a node is the one its children see above them. */
  lemma CallerAbove(source: Text, s: Site)
    ensures EnclosingCaller(s.above + [s.node], source) == CallerBelow(s.node, source, EnclosingCaller(s.above, source))
  {
    assert (s.above + [s.node])[..|s.above|] == s.above;
  }

  lemma KidsMirror(source: Text, s: Site, below: Caller, entry: Tree -> (Tree, nat, Caller))
    requires EnclosingCaller(s.above + [s.node], source) == below
    requires forall child :: entry(child) == (child, |s.above| + 1, below)
    ensures CallsMirror(source, Reversed(Mapped(Kids(s.node), entry)), Pushed(s, 0))
  {
    var kids, added, sites := Kids(s.node), Reversed(Mapped(Kids(s.node), entry)), Pushed(s, 0);
    forall k | 0 <= k < |sites|
      ensures added[k] == (sites[k].node, |sites[k].above|, below) && sites[k].above == s.above + [s.node]
    {
      assert sites[k] == Child(s, |kids| - 1 - k) && added[k] == entry(kids[|kids| - 1 - k]);
    }
  }

  /** The rows of a call node, or the truncation when one of its texts does not slice. */
  method RecordCall(
    node: Tree, caller: Caller, clock: FileClock, out: Extraction, counter0: nat, seen0: set<(nat, nat)>)
    returns (counter: nat, seen: set<(nat, nat)>, overflow: bool)
    modifies clock, out
    ensures Now(out, clock, counter, seen, overflow, false)
         == VisitCall(clock.input, clock.late, node, caller, old(Now(out, clock, counter0, seen0, false, false)))
  {
    counter, seen, overflow := counter0, seen0, false;
    if IsCallKind(node.kind) {
      match CallParts(node, clock.input.source, node.kind.MacroInvocation?, caller) {
        case Err(_) =>
          out.truncated := true;
        case Ok(parts) =>
          counter, seen, overflow := EmitCallRows(node, parts, clock, out, counter, seen);
      }
    }
  }

  /** A call's own row, and what a macro's token tree adds to it. */
  method EmitCallRows(
    node: Tree, parts: CallSite, clock: FileClock, out: Extraction, counter0: nat, seen0: set<(nat, nat)>)
    returns (counter: nat, seen: set<(nat, nat)>, overflow: bool)
    modifies clock, out
    ensures Now(out, clock, counter, seen, overflow, false)
         == EmitCall(clock.input, clock.late, node, parts, old(Now(out, clock, counter0, seen0, false, false)))
  {
    counter, seen, overflow := EmitDirectRow(node, parts, clock, out, counter0, seen0);
    if !overflow && node.kind.MacroInvocation? {
      counter, seen, overflow := EmitRecoveredRows(node, parts, clock, out, counter, seen);
    }
  }

  /** A call's own row, under a key that is taken even when the row is dropped. */
  method EmitDirectRow(
    node: Tree, parts: CallSite, clock: FileClock, out: Extraction, counter0: nat, seen0: set<(nat, nat)>)
    returns (counter: nat, seen: set<(nat, nat)>, overflow: bool)
    modifies out
    ensures Now(out, clock, counter, seen, overflow, false)
         == EmitDirect(clock.input, node, parts, old(Now(out, clock, counter0, seen0, false, false)))
  {
    counter, seen, overflow := counter0 + 1, seen0, false;
    if (node.start, node.end) !in seen {
      seen := seen + {(node.start, node.end)};
      match NodeSpan(clock.input, node) {
        case None => overflow := true;
        case Some(span) =>
          out.items := out.items + [EvidenceItem(Key(CallKey, counter0), node.start, node.end, span, CallRow(parts))];
      }
    }
  }

  /** Pushes the rows a macro's token tree yields, each byte range once. */
  method EmitRecoveredRows(
    node: Tree, parts: CallSite, clock: FileClock, out: Extraction, counter0: nat, seen0: set<(nat, nat)>)
    returns (counter: nat, seen: set<(nat, nat)>, overflow: bool)
    modifies clock, out
    ensures Now(out, clock, counter, seen, overflow, false)
         == EmitRecovered(clock.input, clock.late, node, parts, old(Now(out, clock, counter0, seen0, false, false)))
  {
    counter, seen, overflow := counter0, seen0, false;
    ghost var before := Now(out, clock, counter, seen, false, false);
    var recovered;
    recovered, overflow := ExtractMacro(node, clock, parts.caller);
    if overflow {
      return;
    }
    counter, seen := KeepNewRows(recovered.rows, clock, out, counter, seen);
    RowsIgnoreReadings(before, clock.readings, recovered.rows);
    out.truncated := out.truncated || recovered.capped;
    out.timedOut := out.timedOut || recovered.timedOut;
  }

  method KeepNewRows(rows: seq<MacroRow>, ghost clock: FileClock, out: Extraction, counter0: nat, seen0: set<(nat, nat)>)
    returns (counter: nat, seen: set<(nat, nat)>)
    modifies out`items
    ensures Now(out, clock, counter, seen, false, false) == AddRows(old(Now(out, clock, counter0, seen0, false, false)), rows)
  {
    counter, seen := counter0, seen0;
    ghost var goal := AddRows(Now(out, clock, counter, seen, false, false), rows);
    for i := 0 to |rows|
      invariant AddRows(Now(out, clock, counter, seen, false, false), rows[i..]) == goal
    {
      var row := rows[i];
      assert rows[i..][1..] == rows[i + 1..];
      if (row.start, row.end) !in seen {
        seen := seen + {(row.start, row.end)};
        out.items := out.items + [MacroItem(counter, row)];
        counter := counter + 1;
      }
    }
    assert rows[|rows|..] == [];
  }

  /** Entering rows neither reads nor depends on the clock. */
  lemma {:induction false} RowsIgnoreReadings(run: Run, readings: nat, rows: seq<MacroRow>)
    ensures AddRows(run.(readings := readings), rows) == AddRows(run, rows).(readings := readings)
    decreases |rows|
  {
    if rows != [] {
      if (rows[0].start, rows[0].end) in run.seen {
        RowsIgnoreReadings(run, readings, rows[1..]);
      } else {
        RowsIgnoreReadings(run.(
          items := run.items + [MacroItem(run.counter, rows[0])],
          counter := run.counter + 1,
          seen := run.seen + {(rows[0].start, rows[0].end)}), readings, rows[1..]);
      }
    }
  }
}
