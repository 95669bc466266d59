/** The macro scan as the source runs it: one loop over one stack, fragments and all. */
module MacroWalker {
  import opened Sequences
  import opened SyntaxTree
  import opened Evidence
  import opened TreeCursor
  import opened Calls
  import opened MacroScans

  /** What a macro's token tree holds, and whether some of it was not reached. */
  class MacroCalls {
    var rows: seq<MacroRow>
    var capped: bool
    var timedOut: bool

    constructor ()
      ensures rows == [] && !capped && !timedOut
    {
      rows, capped, timedOut := [], false, false;
    }
  }

  ghost function Now(out: MacroCalls, clock: FileClock, overflow: bool, stopped: bool): Scan
    reads out, clock
  {
    Scan(out.rows, out.capped, out.timedOut, overflow, stopped, clock.readings)
  }

  // ----- the stack

  predicate IsScanStack(stack: seq<Pending>) {
    forall x :: x in stack ==> CanScan(x)
  }

  /** What is left to do for a stack, its last item first. */
  function ScanStack(input: WalkInput, late: Deadline, stack: seq<Pending>, scan: Scan): Scan
    requires IsScanStack(stack)
    decreases |stack|
  {
    if stack == [] then scan
    else ScanStack(input, late, stack[..|stack| - 1], ScanItem(input, late, stack[|stack| - 1], scan))
  }

  lemma {:induction false} ScanStackEnded(input: WalkInput, late: Deadline, stack: seq<Pending>, scan: Scan)
    requires IsScanStack(stack) && ScanEnded(scan)
    ensures ScanStack(input, late, stack, scan) == scan
    decreases |stack|
  {
    if stack != [] {
      ScanStackEnded(input, late, stack[..|stack| - 1], scan);
    }
  }

  lemma ScanStackPush(input: WalkInput, late: Deadline, stack: seq<Pending>, x: Pending, scan: Scan)
    requires IsScanStack(stack) && CanScan(x)
    ensures IsScanStack(stack + [x])
    ensures ScanStack(input, late, stack + [x], scan) == ScanStack(input, late, stack, ScanItem(input, late, x, scan))
  {
    var all := stack + [x];
    assert all[..|all| - 1] == stack && all[|all| - 1] == x;
  }

  /** The children from `i` on, the last one first. */
  function PushedKids(x: Pending, i: nat): (r: seq<Pending>)
    requires i <= |Kids(x.node)|
    ensures |r| == |Kids(x.node)| - i
    ensures forall k :: 0 <= k < |r| ==> r[k] == Kid(x, |Kids(x.node)| - 1 - k)
    decreases |Kids(x.node)| - i
  {
    if i == |Kids(x.node)| then [] else PushedKids(x, i + 1) + [Kid(x, i)]
  }

  lemma {:induction false} PushedKidsAreScanned(
    input: WalkInput, late: Deadline, rest: seq<Pending>, x: Pending, i: nat, scan: Scan)
    requires IsScanStack(rest) && CanScan(x) && x.depth < MAX_WALK_DEPTH && i <= |Kids(x.node)|
    ensures IsScanStack(rest + PushedKids(x, i))
    ensures ScanStack(input, late, rest + PushedKids(x, i), scan) == ScanStack(input, late, rest, ScanKids(input, late, x, i, scan))
    decreases |Kids(x.node)| - i
  {
    if i == |Kids(x.node)| {
      assert rest + [] == rest;
    } else {
      var later := rest + PushedKids(x, i + 1);
      PushedKidsAreScanned(input, late, rest, x, i + 1, ScanItem(input, late, Kid(x, i), scan));
      ScanStackPush(input, late, later, Kid(x, i), scan);
      ConcatAssociative(rest, PushedKids(x, i + 1), [Kid(x, i)]);
    }
  }

  /** The stack after `x` is popped off `rest + [x]`: its children, and on top what a macro there opened. */
  function ScanPushed(rest: seq<Pending>, x: Pending, inner: Option<Pending>): seq<Pending> {
    if x.depth >= MAX_WALK_DEPTH then rest
    else rest + PushedKids(x, 0) + (if inner.Some? then [inner.value] else [])
  }

  // ----- how much is left

  /** The fragment a node opens when nothing is cut. */
  function Opens(input: WalkInput, x: Pending): (r: Option<Pending>)
    ensures r.Some? ==> Nests(x, r.value)
  {
    if x.depth >= MAX_WALK_DEPTH then None else OpenNested(input, Never(), x, FreshScan(0)).1
  }

  /** How many nodes a scan of `x` can come to. */
  function Weight(input: WalkInput, x: Pending): nat
    requires CanScan(x)
    decreases MAX_MACRO_DEPTH - x.fragment.macroDepth, MAX_WALK_DEPTH - x.depth, 0
  {
    1 + (if x.depth == MAX_WALK_DEPTH then 0
         else (if Opens(input, x).Some? then Weight(input, Opens(input, x).value) else 0) + WeightOfKids(input, x, 0))
  }

  function WeightOfKids(input: WalkInput, x: Pending, i: nat): nat
    requires CanScan(x) && x.depth < MAX_WALK_DEPTH && i <= |Kids(x.node)|
    decreases MAX_MACRO_DEPTH - x.fragment.macroDepth, MAX_WALK_DEPTH - x.depth - 1, 1 + |Kids(x.node)| - i
  {
    if i == |Kids(x.node)| then 0 else Weight(input, Kid(x, i)) + WeightOfKids(input, x, i + 1)
  }

  function WeightOfStack(input: WalkInput, stack: seq<Pending>): nat
    requires IsScanStack(stack)
    decreases |stack|
  {
    if stack == [] then 0 else Weight(input, stack[|stack| - 1]) + WeightOfStack(input, stack[..|stack| - 1])
  }

  lemma WeightPush(input: WalkInput, stack: seq<Pending>, x: Pending)
    requires IsScanStack(stack) && CanScan(x)
    ensures IsScanStack(stack + [x])
    ensures WeightOfStack(input, stack + [x]) == Weight(input, x) + WeightOfStack(input, stack)
  {
    var all := stack + [x];
    assert all[..|all| - 1] == stack && all[|all| - 1] == x;
  }

  lemma {:induction false} WeightOfPushedKids(input: WalkInput, rest: seq<Pending>, x: Pending, i: nat)
    requires IsScanStack(rest) && CanScan(x) && x.depth < MAX_WALK_DEPTH && i <= |Kids(x.node)|
    ensures IsScanStack(rest + PushedKids(x, i))
    ensures WeightOfStack(input, rest + PushedKids(x, i)) == WeightOfKids(input, x, i) + WeightOfStack(input, rest)
    decreases |Kids(x.node)| - i
  {
    if i == |Kids(x.node)| {
      assert rest + [] == rest;
    } else {
      var later := PushedKids(x, i + 1);
      WeightOfPushedKids(input, rest, x, i + 1);
      WeightPush(input, rest + later, Kid(x, i));
      ConcatAssociative(rest, later, [Kid(x, i)]);
      assert rest + PushedKids(x, i) == (rest + later) + [Kid(x, i)];
    }
  }

  /** What a node opens under a deadline is what it opens without one, if anything. */
  lemma OpensTheSame(input: WalkInput, late: Deadline, x: Pending, scan: Scan)
    ensures ScanNode(input, late, x, scan).1.Some? ==> ScanNode(input, late, x, scan).1 == Opens(input, x)
  {
  }

  /** One turn of the loop makes one visit of the scan, and leaves less to do. */
  lemma ScanTurn(input: WalkInput, late: Deadline, rest: seq<Pending>, x: Pending, scan: Scan)
    requires IsScanStack(rest) && CanScan(x) && !ScanEnded(scan)
    ensures var (visited, inner) := ScanNode(input, late, x, scan);
            var pushed := ScanPushed(rest, x, inner);
            && IsScanStack(pushed) && WeightOfStack(input, pushed) < WeightOfStack(input, rest + [x])
            && IsScanStack(rest + [x])
            && ScanStack(input, late, rest + [x], scan) == ScanStack(input, late, pushed, visited)
  {
    var (visited, inner) := ScanNode(input, late, x, scan);
    ScanStackPush(input, late, rest, x, scan);
    WeightPush(input, rest, x);
    if x.depth < MAX_WALK_DEPTH {
      var kids := rest + PushedKids(x, 0);
      WeightOfPushedKids(input, rest, x, 0);
      OpensTheSame(input, late, x, scan);
      if inner.Some? {
        WeightPush(input, kids, inner.value);
        ScanStackPush(input, late, kids, inner.value, visited);
        PushedKidsAreScanned(input, late, rest, x, 0, ScanItem(input, late, inner.value, visited));
      } else {
        assert kids + [] == kids;
        PushedKidsAreScanned(input, late, rest, x, 0, visited);
      }
    }
  }

  // ----- the code

  /** Parses a framed text, if there is time, in the time there is. */
  method ReparseText(text: Text, clock: FileClock) returns (tree: Result<Tree, NoTree>)
    modifies clock
    ensures (tree, clock.readings) == Reparsed(clock.input, clock.late, text, old(clock.readings))
  {
    var reading := clock.readings;
    var spent := clock.DeadlineSpent();
    if spent {
      return Err(TimedOut);
    }
    var parsed := clock.input.reparse(text);
    if parsed.Some? && !(clock.late.budget.Some? && clock.late.cancelsReparse(text, reading)) {
      return Ok(parsed.value);
    }
    spent := clock.DeadlineSpent();
    return Err(if spent then TimedOut else Failed);
  }

  /** The stack with a fragment's root on it, if there is one. */
  function WithInner(pending: seq<Pending>, inner: Option<Pending>): seq<Pending> {
    pending + (if inner.Some? then [inner.value] else [])
  }

  /** Re-parses a piece of the source and puts its root on the stack, or says why it cannot be scanned. */
  method OpenFragment(
    start: nat, end: nat, macroDepth: nat, caller: Caller, pending: seq<Pending>, clock: FileClock, out: MacroCalls)
    returns (pushed: seq<Pending>, ghost inner: Option<Pending>)
    modifies clock, out
    ensures (Now(out, clock, false, false), inner)
         == Open(clock.input, clock.late, start, end, macroDepth, caller, old(Now(out, clock, false, false)))
    ensures pushed == WithInner(pending, inner)
  {
    pushed, inner := pending, None;
    assert pending + [] == pending;
    if macroDepth >= MAX_MACRO_DEPTH {
      out.capped := true;
      return;
    }
    var body := NodeText(clock.input.source, start, end);
    if body.Err? {
      out.capped := true;
      return;
    }
    var tree := ReparseText(Wrapped(clock.input.frame, body.value), clock);
    match tree {
      case Err(TimedOut) => out.timedOut := true;
      case Err(Failed) => out.capped := true;
      case Ok(root) =>
        var x := FragmentRoot(clock.input.frame, root, body.value, start, end, macroDepth, caller);
        pushed := pending + [x];
        inner := Some(x);
    }
  }

  /** The row of a call in the frame, or the truncation when one of its texts does not slice. */
  method EmitFragmentCall(x: Pending, clock: FileClock, out: MacroCalls) returns (overflow: bool)
    modifies out
    ensures Now(out, clock, overflow, false) == EmitFragmentRow(clock.input, x, old(Now(out, clock, false, false)))
  {
    overflow := false;
    if InFrame(x.node, x.fragment) && IsCallKind(x.node.kind) {
      match FragmentRow(clock.input, x) {
        case Emits(row) => out.rows := out.rows + [row];
        case NoRow =>
        case BadText => out.capped := true;
        case PastRange => overflow := true;
      }
    }
  }

  /** Pushes a node's children, each with the fragment it is of and the caller that holds there. */
  method PushFragmentKids(pending: seq<Pending>, x: Pending) returns (pushed: seq<Pending>)
    ensures pushed == pending + PushedKids(x, 0)
  {
    var below := FragmentCaller(x);
    var entry := (child: Tree) => Pending(child, x.fragment, x.depth + 1, below);
    pushed := PushChildren(pending, x.node, entry);
    EntriesArePushed(x, entry);
  }

  lemma EntriesArePushed(x: Pending, entry: Tree -> Pending)
    requires forall i :: 0 <= i < |Kids(x.node)| ==> entry(Kids(x.node)[i]) == Kid(x, i)
    ensures Reversed(Mapped(Kids(x.node), entry)) == PushedKids(x, 0)
  {
    var kids, added := Kids(x.node), Reversed(Mapped(Kids(x.node), entry));
    forall k | 0 <= k < |added| ensures added[k] == PushedKids(x, 0)[k] {
      var i := |kids| - 1 - k;
      assert Mapped(kids, entry)[i] == entry(kids[i]);
    }
  }

  /** The fragment of a macro inside a fragment goes on top, under the caller of that macro. */
  method OpenNestedMacro(x: Pending, pending: seq<Pending>, clock: FileClock, out: MacroCalls)
    returns (pushed: seq<Pending>, ghost inner: Option<Pending>)
    modifies clock, out
    ensures (Now(out, clock, false, false), inner)
         == OpenNested(clock.input, clock.late, x, old(Now(out, clock, false, false)))
    ensures pushed == WithInner(pending, inner)
  {
    pushed, inner := pending, None;
    assert pending + [] == pending;
    var nested := if InFrame(x.node, x.fragment) then NestedRange(x) else None;
    if nested.Some? {
      pushed, inner := OpenFragment(
        nested.value.0, nested.value.1, x.fragment.macroDepth + 1, x.caller, pending, clock, out);
    }
  }

  /** The body of the loop: pop, read the deadline, check the depth, record, push. */
  method ScanPop(pending: seq<Pending>, clock: FileClock, out: MacroCalls)
    returns (pushed: seq<Pending>, spent: bool, overflow: bool, ghost inner: Option<Pending>)
    requires pending != []
    modifies clock, out
    ensures (Now(out, clock, overflow, spent), inner)
         == ScanNode(clock.input, clock.late, pending[|pending| - 1], old(Now(out, clock, false, false)))
    ensures !spent && !overflow ==> pushed == ScanPushed(pending[..|pending| - 1], pending[|pending| - 1], inner)
  {
    var x := pending[|pending| - 1];
    pushed, overflow, inner := pending[..|pending| - 1], false, None;
    spent := clock.DeadlineSpent();
    if spent {
      out.timedOut := true;
      return;
    }
    if x.depth >= MAX_WALK_DEPTH {
      out.capped := true;
      return;
    }
    overflow := EmitFragmentCall(x, clock, out);
    if overflow {
      return;
    }
    pushed := PushFragmentKids(pushed, x);
    pushed, inner := OpenNestedMacro(x, pushed, clock, out);
  }

  method ScanLoop(pending0: seq<Pending>, clock: FileClock, out: MacroCalls) returns (overflow: bool, ghost stopped: bool)
    requires IsScanStack(pending0)
    modifies clock, out
    ensures Now(out, clock, overflow, stopped)
         == ScanStack(clock.input, clock.late, pending0, old(Now(out, clock, false, false)))
  {
    var pending := pending0;
    overflow, stopped := false, false;
    ghost var goal := ScanStack(clock.input, clock.late, pending, Now(out, clock, false, false));
    while pending != []
      invariant IsScanStack(pending) && !overflow && !stopped
      invariant ScanStack(clock.input, clock.late, pending, Now(out, clock, false, false)) == goal
      decreases WeightOfStack(clock.input, pending)
    {
      ghost var rest, x := pending[..|pending| - 1], pending[|pending| - 1];
      assert rest + [x] == pending && x in pending;
      ScanTurn(clock.input, clock.late, rest, x, Now(out, clock, false, false));
      var spent;
      ghost var inner;
      ghost var before := Now(out, clock, false, false);
      pending, spent, overflow, inner := ScanPop(pending, clock, out);
      stopped := spent;
      if spent || overflow {
        ScanStackEnded(clock.input, clock.late, ScanPushed(rest, x, inner), Now(out, clock, overflow, spent));
        return;
      }
    }
  }

  /** The calls hidden in one macro's token tree. */
  method ExtractMacro(node: Tree, clock: FileClock, caller: Option<Text>) returns (out: MacroCalls, overflow: bool)
    modifies clock
    ensures fresh(out)
    ensures var scan := ScanMacro(clock.input, clock.late, node, caller, old(clock.readings));
            && out.rows == scan.rows && out.capped == scan.capped && out.timedOut == scan.timedOut
            && overflow == scan.overflow && clock.readings == scan.readings
  {
    out := new MacroCalls();
    overflow := false;
    var tokens := FirstTokens(Kids(node));
    if tokens.None? {
      return;
    }
    var pending;
    ghost var inner, stopped;
    pending, inner := OpenFragment(
      tokens.value.start + 1, Minus(tokens.value.end, 1), 0, Ok(caller), [], clock, out);
    OneItem(clock.input, clock.late, inner, Now(out, clock, false, false));
    overflow, stopped := ScanLoop(pending, clock, out);
  }

  lemma OneItem(input: WalkInput, late: Deadline, inner: Option<Pending>, scan: Scan)
    requires inner.Some? ==> CanScan(inner.value)
    ensures IsScanStack(WithInner([], inner))
    ensures ScanStack(input, late, WithInner([], inner), scan)
         == if inner.Some? then ScanItem(input, late, inner.value, scan) else scan
  {
    var stack := WithInner([], inner);
    if inner.Some? {
      assert stack == [inner.value] && stack[..0] == [];
    }
  }
}
