/** Which nodes a macro scan visits, through its fragments and in which order, and the rows that gives. */
module MacroSpots {
  import opened Sequences
  import opened SyntaxTree
  import opened Evidence
  import opened Calls
  import opened MacroScans
  import opened MacroCuts
  import opened MacroWalker

  /** A step from a node: into the fragment of the macro it is, or to one of its named children. */
  datatype Turn = IntoMacro | IntoKid(i: nat)

  type Way = seq<Turn>

  /** A node as the scan comes to it, and the way there. */
  datatype Spot = Spot(x: Pending, way: Way)

  predicate CanTurn(input: WalkInput, x: Pending, turn: Turn) {
    && x.depth < MAX_WALK_DEPTH
    && match turn
       case IntoMacro => Opens(input, x).Some?
       case IntoKid(i) => i < |Kids(x.node)|
  }

  function Turned(input: WalkInput, x: Pending, turn: Turn): (y: Pending)
    requires CanScan(x) && CanTurn(input, x, turn)
    ensures CanScan(y)
    ensures y.fragment.macroDepth > x.fragment.macroDepth
            || (y.fragment.macroDepth == x.fragment.macroDepth && y.depth == x.depth + 1)
  {
    match turn
    case IntoMacro => Opens(input, x).value
    case IntoKid(i) => Kid(x, i)
  }

  function After(input: WalkInput, s: Spot, turn: Turn): (t: Spot)
    requires CanScan(s.x) && CanTurn(input, s.x, turn)
    ensures CanScan(t.x)
  {
    Spot(Turned(input, s.x, turn), s.way + [turn])
  }

  /** Whether `way` leads somewhere. */
  predicate Leads(input: WalkInput, x: Pending, way: Way)
    requires CanScan(x)
    decreases |way|
  {
    way == [] || (CanTurn(input, x, way[0]) && Leads(input, Turned(input, x, way[0]), way[1..]))
  }

  /** Where it leads. */
  function LedTo(input: WalkInput, x: Pending, way: Way): (y: Pending)
    requires CanScan(x) && Leads(input, x, way)
    ensures CanScan(y)
    decreases |way|
  {
    if way == [] then x else LedTo(input, Turned(input, x, way[0]), way[1..])
  }

  /** A macro's fragment before the macro's children, and an earlier child before a later one. */
  predicate TurnBefore(a: Turn, b: Turn) {
    b.IntoKid? && (a.IntoMacro? || a.i < b.i)
  }

  /** A node before everything under it, and otherwise as the turns that differ. */
  predicate WayBefore(a: Way, b: Way) {
    b != [] && (a == [] || TurnBefore(a[0], b[0]) || (a[0] == b[0] && WayBefore(a[1..], b[1..])))
  }

  // ----- the nodes of a scan that nothing cuts

  function Spots(input: WalkInput, s: Spot): seq<Spot>
    requires CanScan(s.x)
    decreases MAX_MACRO_DEPTH - s.x.fragment.macroDepth, MAX_WALK_DEPTH - s.x.depth, 0
  {
    [s] + (if s.x.depth == MAX_WALK_DEPTH then [] else InnerSpots(input, s) + KidSpots(input, s, 0))
  }

  function InnerSpots(input: WalkInput, s: Spot): seq<Spot>
    requires CanScan(s.x) && s.x.depth < MAX_WALK_DEPTH
    decreases MAX_MACRO_DEPTH - s.x.fragment.macroDepth, MAX_WALK_DEPTH - s.x.depth - 1, 0
  {
    if CanTurn(input, s.x, IntoMacro) then Spots(input, After(input, s, IntoMacro)) else []
  }

  function KidSpots(input: WalkInput, s: Spot, i: nat): seq<Spot>
    requires CanScan(s.x) && s.x.depth < MAX_WALK_DEPTH && i <= |Kids(s.x.node)|
    decreases MAX_MACRO_DEPTH - s.x.fragment.macroDepth, MAX_WALK_DEPTH - s.x.depth - 1, 1 + |Kids(s.x.node)| - i
  {
    if i == |Kids(s.x.node)| then []
    else Spots(input, After(input, s, IntoKid(i))) + KidSpots(input, s, i + 1)
  }

  /** The row a node gives when the scan comes to it. */
  function RowAt(input: WalkInput, x: Pending): Option<MacroRow> {
    if x.depth < MAX_WALK_DEPTH && InFrame(x.node, x.fragment) && IsCallKind(x.node.kind) && FragmentRow(input, x).Emits?
    then Some(FragmentRow(input, x).row)
    else None
  }

  function RowOfSpot(input: WalkInput): Spot -> Option<MacroRow> {
    (t: Spot) => RowAt(input, t.x)
  }

  function RowsAt(input: WalkInput, spots: seq<Spot>): seq<MacroRow> {
    Gathered(spots, RowOfSpot(input))
  }

  /** A piece of the source that can be re-parsed at this depth of macros. */
  predicate CanOpen(input: WalkInput, start: nat, end: nat, macroDepth: nat) {
    && macroDepth < 64 && NodeText(input.source, start, end).Ok?
    && input.reparse(input.frame.prefix + input.source[start..end] + input.frame.suffix).Some?
  }

  /** A call in the frame one of whose texts does not slice. */
  predicate TextFails(input: WalkInput, x: Pending) {
    InFrame(x.node, x.fragment) && IsCallKind(x.node.kind) && FragmentRow(input, x).BadText?
  }

  /** A macro in the frame whose own token tree cannot be re-parsed. */
  predicate NestFails(input: WalkInput, x: Pending) {
    && InFrame(x.node, x.fragment) && NestedRange(x).Some?
    && !CanOpen(input, NestedRange(x).value.0, NestedRange(x).value.1, x.fragment.macroDepth + 1)
  }

  /** What a scan cuts off at a node: all of it at the depth bound, its row, or the macro it is. */
  predicate Caps(input: WalkInput, x: Pending) {
    x.depth >= 512 || TextFails(input, x) || NestFails(input, x)
  }

  predicate AnyCaps(input: WalkInput, spots: seq<Spot>) {
    exists t :: t in spots && Caps(input, t.x)
  }

  /** A node whose row, if it is a call, has positions that fit. */
  predicate IsInRange(input: WalkInput, x: Pending) {
    x.depth < 512 && InFrame(x.node, x.fragment) && IsCallKind(x.node.kind) ==> !FragmentRow(input, x).PastRange?
  }

  predicate AllInRange(input: WalkInput, spots: seq<Spot>) {
    forall t :: t in spots ==> IsInRange(input, t.x)
  }

  /** What a scan with no deadline and no error has done at `spots`. */
  predicate Visited(input: WalkInput, before: Scan, after: Scan, spots: seq<Spot>) {
    && !before.overflow && AllInRange(input, spots)
    && after.rows == before.rows + RowsAt(input, spots)
    && (after.capped <==> before.capped || AnyCaps(input, spots))
  }

  lemma VisitedBoth(input: WalkInput, before: Scan, middle: Scan, after: Scan, a: seq<Spot>, b: seq<Spot>)
    requires Visited(input, before, middle, a) && Visited(input, middle, after, b)
    ensures Visited(input, before, after, a + b)
  {
    GatheredConcat(a, b, RowOfSpot(input));
    ConcatAssociative(before.rows, RowsAt(input, a), RowsAt(input, b));
  }

  lemma VisitedNone(input: WalkInput, scan: Scan)
    requires !scan.overflow
    ensures Visited(input, scan, scan, [])
  {
    assert scan.rows + [] == scan.rows;
  }

  lemma FreeEmit(input: WalkInput, x: Pending, scan: Scan)
    requires x.depth < MAX_WALK_DEPTH && !EmitFragmentRow(input, x, scan).overflow
    ensures !scan.overflow && IsInRange(input, x)
    ensures var emitted := EmitFragmentRow(input, x, scan);
            && emitted.rows == scan.rows + (if RowAt(input, x).Some? then [RowAt(input, x).value] else [])
            && (emitted.capped <==> scan.capped || TextFails(input, x))
  {
  }

  lemma FreeNested(input: WalkInput, x: Pending, scan: Scan)
    requires x.depth < MAX_WALK_DEPTH && !scan.overflow
    ensures OpenNested(input, Never(), x, scan).1 == Opens(input, x)
    ensures var nested := OpenNested(input, Never(), x, scan).0;
            && nested.rows == scan.rows && nested.overflow == scan.overflow
            && (nested.capped <==> scan.capped || NestFails(input, x))
  {
  }

  lemma NestedKeepsOverflow(input: WalkInput, x: Pending, scan: Scan)
    ensures OpenNested(input, Never(), x, scan).0.overflow == scan.overflow
  {
  }

  lemma FreeNode(input: WalkInput, s: Spot, scan: Scan)
    requires !ScanNode(input, Never(), s.x, scan).0.overflow
    ensures Visited(input, scan, ScanNode(input, Never(), s.x, scan).0, [s])
    ensures ScanNode(input, Never(), s.x, scan).1 == Opens(input, s.x)
  {
    var read := scan.(readings := scan.readings + 1);
    NodeInTime(input, Never(), s.x, scan);
    assert RowsAt(input, [s]) == (if RowAt(input, s.x).Some? then [RowAt(input, s.x).value] else []) by {
      assert Gathered([s][1..], RowOfSpot(input)) == [];
    }
    assert AnyCaps(input, [s]) <==> Caps(input, s.x) by {
      assert s in [s];
    }
    if s.x.depth < MAX_WALK_DEPTH {
      var emitted := EmitFragmentRow(input, s.x, read);
      NestedKeepsOverflow(input, s.x, emitted);
      FreeEmit(input, s.x, read);
      FreeNested(input, s.x, emitted);
    }
  }

  /** A scan without a deadline or an error visits its spots, and no others, in their order. */
  lemma {:induction false} ScanVisitsSpots(input: WalkInput, s: Spot, scan: Scan)
    requires CanScan(s.x) && !scan.timedOut && !scan.stopped && !ScanItem(input, Never(), s.x, scan).overflow
    ensures Visited(input, scan, ScanItem(input, Never(), s.x, scan), Spots(input, s))
    decreases MAX_MACRO_DEPTH - s.x.fragment.macroDepth, MAX_WALK_DEPTH - s.x.depth, 0
  {
    var (visited, inner) := ScanNode(input, Never(), s.x, scan);
    var after := ScanItem(input, Never(), s.x, scan);
    FreeStaysFree(input, Never(), s.x, scan);
    if s.x.depth < MAX_WALK_DEPTH {
      var next := AfterInner(input, Never(), visited, inner);
      if inner.Some? {
        FreeItem(input, Never(), inner.value, visited);
      }
      ScanVisitsKids(input, s, 0, next);
      if inner.Some? {
        OpensTheSame(input, Never(), s.x, scan);
        ScanVisitsSpots(input, After(input, s, IntoMacro), visited);
      } else {
        VisitedNone(input, visited);
      }
      FreeNode(input, s, scan);
      VisitedBoth(input, visited, next, after, InnerSpots(input, s), KidSpots(input, s, 0));
      VisitedBoth(input, scan, visited, after, [s], InnerSpots(input, s) + KidSpots(input, s, 0));
    } else {
      FreeNode(input, s, scan);
      assert Spots(input, s) == [s] + [] == [s];
    }
  }

  lemma {:induction false} ScanVisitsKids(input: WalkInput, s: Spot, i: nat, scan: Scan)
    requires CanScan(s.x) && s.x.depth < MAX_WALK_DEPTH && i <= |Kids(s.x.node)|
    requires !scan.timedOut && !scan.stopped && !ScanKids(input, Never(), s.x, i, scan).overflow
    ensures Visited(input, scan, ScanKids(input, Never(), s.x, i, scan), KidSpots(input, s, i))
    decreases MAX_MACRO_DEPTH - s.x.fragment.macroDepth, MAX_WALK_DEPTH - s.x.depth - 1, 1 + |Kids(s.x.node)| - i
  {
    if i < |Kids(s.x.node)| {
      var next := ScanItem(input, Never(), Kid(s.x, i), scan);
      FreeItem(input, Never(), Kid(s.x, i), scan);
      ScanVisitsKids(input, s, i + 1, next);
      ScanVisitsSpots(input, After(input, s, IntoKid(i)), scan);
      VisitedBoth(input, scan, next, ScanKids(input, Never(), s.x, i, scan),
                  Spots(input, After(input, s, IntoKid(i))), KidSpots(input, s, i + 1));
    } else {
      VisitedNone(input, scan);
    }
  }

  // ----- which nodes these are

  /** A spot that is where its way leads from `x`. */
  predicate IsSpot(input: WalkInput, x: Pending, s: Spot)
    requires CanScan(x)
  {
    Leads(input, x, s.way) && s.x == LedTo(input, x, s.way)
  }

  /** Below a spot the ways go on from its own. */
  ghost predicate GoesOn(input: WalkInput, s: Spot, t: Spot)
    requires CanScan(s.x)
  {
    exists way :: t.way == s.way + way && Leads(input, s.x, way) && t.x == LedTo(input, s.x, way)
  }

  lemma GoesOnAfter(input: WalkInput, s: Spot, turn: Turn, t: Spot)
    requires CanScan(s.x) && CanTurn(input, s.x, turn) && GoesOn(input, After(input, s, turn), t)
    ensures GoesOn(input, s, t) && |t.way| > |s.way| && t.way[|s.way|] == turn
  {
    var next := After(input, s, turn);
    var way :| t.way == next.way + way && Leads(input, next.x, way) && t.x == LedTo(input, next.x, way);
    assert ([turn] + way)[1..] == way;
    assert t.way == s.way + ([turn] + way);
    assert Leads(input, s.x, [turn] + way);
  }

  /** What is visited below a spot. */
  function SpotsBelow(input: WalkInput, s: Spot): seq<Spot>
    requires CanScan(s.x) && s.x.depth < MAX_WALK_DEPTH
  {
    InnerSpots(input, s) + KidSpots(input, s, 0)
  }

  /** Every node visited lies on a way, and only the first one is where that starts. */
  lemma {:induction false} SpotsSound(input: WalkInput, s: Spot, k: nat)
    requires CanScan(s.x) && k < |Spots(input, s)|
    ensures GoesOn(input, s, Spots(input, s)[k])
    ensures if k == 0 then Spots(input, s)[k] == s else |Spots(input, s)[k].way| > |s.way|
    decreases MAX_MACRO_DEPTH - s.x.fragment.macroDepth, MAX_WALK_DEPTH - s.x.depth, 0
  {
    if k == 0 {
      assert s.way + [] == s.way && Leads(input, s.x, []);
    } else {
      BelowSound(input, s, k - 1);
      assert Spots(input, s)[k] == SpotsBelow(input, s)[k - 1];
    }
  }

  lemma {:induction false} BelowSound(input: WalkInput, s: Spot, k: nat)
    requires CanScan(s.x) && s.x.depth < MAX_WALK_DEPTH && k < |SpotsBelow(input, s)|
    ensures GoesOn(input, s, SpotsBelow(input, s)[k]) && |SpotsBelow(input, s)[k].way| > |s.way|
    decreases MAX_MACRO_DEPTH - s.x.fragment.macroDepth, MAX_WALK_DEPTH - s.x.depth - 1, 3 + |Kids(s.x.node)|
  {
    var inner, kids := InnerSpots(input, s), KidSpots(input, s, 0);
    assert SpotsBelow(input, s) == inner + kids;
    if k < |inner| {
      InnerSound(input, s, k);
    } else {
      KidSound(input, s, k - |inner|);
    }
  }

  lemma {:induction false} InnerSound(input: WalkInput, s: Spot, k: nat)
    requires CanScan(s.x) && s.x.depth < MAX_WALK_DEPTH && k < |InnerSpots(input, s)|
    ensures GoesOn(input, s, InnerSpots(input, s)[k]) && |InnerSpots(input, s)[k].way| > |s.way|
    decreases MAX_MACRO_DEPTH - s.x.fragment.macroDepth, MAX_WALK_DEPTH - s.x.depth - 1, 2 + |Kids(s.x.node)|
  {
    SpotsSound(input, After(input, s, IntoMacro), k);
    GoesOnAfter(input, s, IntoMacro, InnerSpots(input, s)[k]);
  }

  lemma {:induction false} KidSound(input: WalkInput, s: Spot, k: nat)
    requires CanScan(s.x) && s.x.depth < MAX_WALK_DEPTH && k < |KidSpots(input, s, 0)|
    ensures GoesOn(input, s, KidSpots(input, s, 0)[k]) && |KidSpots(input, s, 0)[k].way| > |s.way|
    decreases MAX_MACRO_DEPTH - s.x.fragment.macroDepth, MAX_WALK_DEPTH - s.x.depth - 1, 2 + |Kids(s.x.node)|
  {
    var i := KidSpotsSound(input, s, 0, k);
    GoesOnAfter(input, s, IntoKid(i), KidSpots(input, s, 0)[k]);
  }

  lemma {:induction false} KidSpotsSound(input: WalkInput, s: Spot, i: nat, k: nat) returns (j: nat)
    requires CanScan(s.x) && s.x.depth < MAX_WALK_DEPTH && i <= |Kids(s.x.node)| && k < |KidSpots(input, s, i)|
    ensures i <= j < |Kids(s.x.node)| && GoesOn(input, After(input, s, IntoKid(j)), KidSpots(input, s, i)[k])
    decreases MAX_MACRO_DEPTH - s.x.fragment.macroDepth, MAX_WALK_DEPTH - s.x.depth - 1, 1 + |Kids(s.x.node)| - i
  {
    var first := Spots(input, After(input, s, IntoKid(i)));
    if k < |first| {
      j := i;
      SpotsSound(input, After(input, s, IntoKid(i)), k);
    } else {
      j := KidSpotsSound(input, s, i + 1, k - |first|);
    }
  }

  lemma SpotBelow(input: WalkInput, s: Spot, turn: Turn, t: Spot)
    requires CanScan(s.x) && CanTurn(input, s.x, turn) && t in Spots(input, After(input, s, turn))
    ensures t in Spots(input, s)
  {
    if turn.IntoMacro? {
      assert t in InnerSpots(input, s);
    } else {
      KidSpotsContain(input, s, 0, turn.i, t);
    }
  }

  lemma SameWay(before: Way, way: Way)
    requires way != []
    ensures before + [way[0]] + way[1..] == before + way
  {
  }

  /** Every node a way leads to is visited. */
  lemma {:induction false} SpotsComplete(input: WalkInput, s: Spot, way: Way)
    requires CanScan(s.x) && Leads(input, s.x, way)
    ensures Spot(LedTo(input, s.x, way), s.way + way) in Spots(input, s)
    decreases |way|
  {
    if way == [] {
      assert s.way + [] == s.way && Spots(input, s)[0] == s;
    } else {
      var next := After(input, s, way[0]);
      SpotsComplete(input, next, way[1..]);
      SameWay(s.way, way);
      SpotBelow(input, s, way[0], Spot(LedTo(input, s.x, way), s.way + way));
    }
  }

  lemma {:induction false} KidSpotsContain(input: WalkInput, s: Spot, i: nat, j: nat, t: Spot)
    requires CanScan(s.x) && s.x.depth < MAX_WALK_DEPTH && i <= j < |Kids(s.x.node)|
    requires t in Spots(input, After(input, s, IntoKid(j)))
    ensures t in KidSpots(input, s, i)
    decreases j - i
  {
    var first := Spots(input, After(input, s, IntoKid(i)));
    if i < j {
      KidSpotsContain(input, s, i + 1, j, t);
      assert t in KidSpots(input, s, i + 1);
    }
    assert t in first + KidSpots(input, s, i + 1);
  }

  lemma {:induction false} WayBeforeExtends(p: Way, a: Way, b: Way)
    ensures WayBefore(p + a, p + b) <==> WayBefore(a, b)
    decreases |p|
  {
    if p == [] {
      assert p + a == a && p + b == b;
    } else {
      WayBeforeExtends(p[1..], a, b);
      assert (p + a)[1..] == p[1..] + a && (p + b)[1..] == p[1..] + b;
    }
  }

  /** Ways that part at different turns are ordered as these. */
  lemma PartingWays(p: Way, a: Way, b: Way)
    requires |a| > |p| && |b| > |p| && p <= a && p <= b && TurnBefore(a[|p|], b[|p|])
    ensures WayBefore(a, b)
  {
    WayBeforeExtends(p, a[|p|..], b[|p|..]);
    assert a == p + a[|p|..] && b == p + b[|p|..];
  }

  lemma LongerWay(p: Way, b: Way)
    requires |b| > |p| && p <= b
    ensures WayBefore(p, b)
  {
    WayBeforeExtends(p, [], b[|p|..]);
    assert p + [] == p && b == p + b[|p|..];
  }

  lemma TurnOfInner(input: WalkInput, s: Spot, k: nat)
    requires CanScan(s.x) && s.x.depth < MAX_WALK_DEPTH && k < |InnerSpots(input, s)|
    ensures var t := InnerSpots(input, s)[k]; s.way <= t.way && |t.way| > |s.way| && t.way[|s.way|] == IntoMacro
  {
    SpotsSound(input, After(input, s, IntoMacro), k);
    GoesOnAfter(input, s, IntoMacro, InnerSpots(input, s)[k]);
  }

  lemma TurnOfKid(input: WalkInput, s: Spot, i: nat, k: nat) returns (j: nat)
    requires CanScan(s.x) && s.x.depth < MAX_WALK_DEPTH && i <= |Kids(s.x.node)| && k < |KidSpots(input, s, i)|
    ensures i <= j
    ensures var t := KidSpots(input, s, i)[k]; s.way <= t.way && |t.way| > |s.way| && t.way[|s.way|] == IntoKid(j)
  {
    j := KidSpotsSound(input, s, i, k);
    GoesOnAfter(input, s, IntoKid(j), KidSpots(input, s, i)[k]);
  }

  lemma TurnOfFirstKid(input: WalkInput, s: Spot, i: nat, k: nat)
    requires CanScan(s.x) && s.x.depth < MAX_WALK_DEPTH && i < |Kids(s.x.node)|
    requires k < |Spots(input, After(input, s, IntoKid(i)))|
    ensures var t := Spots(input, After(input, s, IntoKid(i)))[k];
            s.way <= t.way && |t.way| > |s.way| && t.way[|s.way|] == IntoKid(i)
  {
    SpotsSound(input, After(input, s, IntoKid(i)), k);
    GoesOnAfter(input, s, IntoKid(i), Spots(input, After(input, s, IntoKid(i)))[k]);
  }

  /** The scan never goes back. */
  lemma {:induction false} SpotsSorted(input: WalkInput, s: Spot, a: nat, b: nat)
    requires CanScan(s.x) && a < b < |Spots(input, s)|
    ensures WayBefore(Spots(input, s)[a].way, Spots(input, s)[b].way)
    decreases MAX_MACRO_DEPTH - s.x.fragment.macroDepth, MAX_WALK_DEPTH - s.x.depth, 0
  {
    var below := SpotsBelow(input, s);
    assert Spots(input, s)[b] == below[b - 1];
    if a == 0 {
      SpotsSound(input, s, b);
      LongerWay(s.way, Spots(input, s)[b].way);
    } else {
      BelowSorted(input, s, a - 1, b - 1);
      assert Spots(input, s)[a] == below[a - 1];
    }
  }

  lemma {:induction false} BelowSorted(input: WalkInput, s: Spot, a: nat, b: nat)
    requires CanScan(s.x) && s.x.depth < MAX_WALK_DEPTH && a < b < |SpotsBelow(input, s)|
    ensures WayBefore(SpotsBelow(input, s)[a].way, SpotsBelow(input, s)[b].way)
    decreases MAX_MACRO_DEPTH - s.x.fragment.macroDepth, MAX_WALK_DEPTH - s.x.depth - 1, 2 + |Kids(s.x.node)|
  {
    var inner, kids := InnerSpots(input, s), KidSpots(input, s, 0);
    if b < |inner| {
      SpotsSorted(input, After(input, s, IntoMacro), a, b);
    } else if a < |inner| {
      TurnOfInner(input, s, a);
      var j := TurnOfKid(input, s, 0, b - |inner|);
      PartingWays(s.way, inner[a].way, kids[b - |inner|].way);
    } else {
      KidSpotsSorted(input, s, 0, a - |inner|, b - |inner|);
    }
  }

  lemma KidBeforeLater(input: WalkInput, s: Spot, i: nat, a: nat, b: nat)
    requires CanScan(s.x) && s.x.depth < MAX_WALK_DEPTH && i < |Kids(s.x.node)|
    requires a < |Spots(input, After(input, s, IntoKid(i)))| && b < |KidSpots(input, s, i + 1)|
    ensures WayBefore(Spots(input, After(input, s, IntoKid(i)))[a].way, KidSpots(input, s, i + 1)[b].way)
  {
    TurnOfFirstKid(input, s, i, a);
    var j := TurnOfKid(input, s, i + 1, b);
    PartingWays(s.way, Spots(input, After(input, s, IntoKid(i)))[a].way, KidSpots(input, s, i + 1)[b].way);
  }

  lemma {:induction false} KidSpotsSorted(input: WalkInput, s: Spot, i: nat, a: nat, b: nat)
    requires CanScan(s.x) && s.x.depth < MAX_WALK_DEPTH && i <= |Kids(s.x.node)| && a < b < |KidSpots(input, s, i)|
    ensures WayBefore(KidSpots(input, s, i)[a].way, KidSpots(input, s, i)[b].way)
    decreases MAX_MACRO_DEPTH - s.x.fragment.macroDepth, MAX_WALK_DEPTH - s.x.depth - 1, 1 + |Kids(s.x.node)| - i
  {
    var first, later := Spots(input, After(input, s, IntoKid(i))), KidSpots(input, s, i + 1);
    assert KidSpots(input, s, i) == first + later;
    if b < |first| {
      SpotsSorted(input, After(input, s, IntoKid(i)), a, b);
    } else if a < |first| {
      KidBeforeLater(input, s, i, a, b - |first|);
    } else {
      KidSpotsSorted(input, s, i + 1, a - |first|, b - |first|);
    }
  }

  /** The visiting order without the scan: exactly the nodes that ways lead to, each once, in order. */
  lemma ScanOrder(input: WalkInput, x: Pending)
    requires CanScan(x)
    ensures var spots := Spots(input, Spot(x, []));
            && (forall way :: Leads(input, x, way) ==> Spot(LedTo(input, x, way), way) in spots)
            && (forall t :: t in spots ==> IsSpot(input, x, t))
            && (forall a, b :: 0 <= a < b < |spots| ==> WayBefore(spots[a].way, spots[b].way))
  {
    var s := Spot(x, []);
    var spots := Spots(input, s);
    forall way | Leads(input, x, way) ensures Spot(LedTo(input, x, way), way) in spots {
      SpotsComplete(input, s, way);
      assert [] + way == way;
    }
    forall t | t in spots ensures IsSpot(input, x, t) {
      var k :| 0 <= k < |spots| && spots[k] == t;
      SpotsSound(input, s, k);
      var way :| t.way == s.way + way && Leads(input, x, way) && t.x == LedTo(input, x, way);
      assert t.way == way;
    }
    forall a, b | 0 <= a < b < |spots| ensures WayBefore(spots[a].way, spots[b].way) {
      SpotsSorted(input, s, a, b);
    }
  }

  /** The root of the fragment of a macro's own token tree. */
  function MacroRoot(input: WalkInput, node: Tree, caller: Option<Text>): (r: Option<Pending>)
    ensures r.Some? ==> CanScan(r.value)
  {
    match FirstTokens(Kids(node))
    case None => None
    case Some(tokens) => Open(input, Never(), tokens.start + 1, Minus(tokens.end, 1), 0, Ok(caller), FreshScan(0)).1
  }

  /** Whether the scan of a macro skips something: its own fragment cannot be opened, or something in it is cut off. */
  predicate MacroCapped(input: WalkInput, node: Tree, caller: Option<Text>) {
    var tokens, root := FirstTokens(Kids(node)), MacroRoot(input, node, caller);
    || (tokens.Some? && !CanOpen(input, tokens.value.start + 1, Minus(tokens.value.end, 1), 0))
    || (root.Some? && AnyCaps(input, Spots(input, Spot(root.value, []))))
  }

  /**
   * A macro whose positions fit yields the rows of the nodes on those ways, in that order,
   * and is reported as capped exactly when something was skipped.
   */
  lemma RowsInAreSpots(input: WalkInput, node: Tree, caller: Option<Text>)
    requires !RowsIn(input, node, caller).overflow
    ensures var root, full := MacroRoot(input, node, caller), RowsIn(input, node, caller);
            && full.rows == (if root.Some? then RowsAt(input, Spots(input, Spot(root.value, []))) else [])
            && (full.capped <==> MacroCapped(input, node, caller))
            && (root.Some? ==> AllInRange(input, Spots(input, Spot(root.value, []))))
  {
    var tokens, root := FirstTokens(Kids(node)), MacroRoot(input, node, caller);
    if tokens.Some? {
      OpenedIff(input, tokens.value.start + 1, Minus(tokens.value.end, 1), Ok(caller));
    }
    if root.Some? {
      var scan := Open(input, Never(), tokens.value.start + 1, Minus(tokens.value.end, 1), 0, Ok(caller), FreshScan(0)).0;
      ScanVisitsSpots(input, Spot(root.value, []), scan);
    }
  }

  lemma OpenedIff(input: WalkInput, start: nat, end: nat, caller: Caller)
    ensures var (scan, inner) := Open(input, Never(), start, end, 0, caller, FreshScan(0));
            && (inner.Some? <==> CanOpen(input, start, end, 0)) && (scan.capped <==> inner.None?)
            && scan.rows == [] && !scan.overflow && !scan.timedOut && !scan.stopped
  {
  }
}
