/** What a recovered row says: where its call is in the source, what it calls, and from where. */
module MacroRanges {
  import opened Sequences
  import opened SyntaxTree
  import opened Evidence
  import opened Spans
  import opened Calls
  import opened CalleeNames
  import opened MacroScans
  import opened MacroWalker
  import opened MacroSpots

  // ----- trees as a parser gives them

  /** A node's children lie within it, all the way down. */
  predicate Placed(node: Tree)
    decreases node
  {
    node.start <= node.end && AllPlaced(node.children, node.start, node.end)
  }

  predicate AllPlaced(nodes: seq<Tree>, start: nat, end: nat)
    decreases nodes
  {
    nodes == [] ||
    (start <= nodes[0].start && nodes[0].end <= end && Placed(nodes[0]) && AllPlaced(nodes[1..], start, end))
  }

  /** The parser places the nodes of every text. */
  ghost predicate ParsesPlaced(input: WalkInput) {
    forall text :: input.reparse(text).Some? ==> Placed(input.reparse(text).value)
  }

  lemma {:induction false} ChildPlaced(nodes: seq<Tree>, start: nat, end: nat, child: Tree)
    requires AllPlaced(nodes, start, end) && child in nodes
    ensures start <= child.start <= child.end <= end && Placed(child)
    decreases |nodes|
  {
    if child != nodes[0] {
      ChildPlaced(nodes[1..], start, end, child);
    }
  }

  // ----- pieces of the source

  /** A fragment is a piece of the source in the frame. */
  predicate IsPiece(input: WalkInput, f: Fragment) {
    && f.start <= f.end <= |input.source| && f.frame == input.frame
    && f.wrapped == input.frame.prefix + input.source[f.start..f.end] + input.frame.suffix
  }

  /** What the source holds at a range, and a fragment at a node. */
  predicate SameText(input: WalkInput, start: nat, end: nat, f: Fragment, node: Tree) {
    && f.start <= start <= end <= f.end <= |input.source| && node.start <= node.end <= |f.wrapped|
    && start + |f.frame.prefix| == f.start + node.start && end - start == node.end - node.start
    && input.source[start..end] == f.wrapped[node.start..node.end]
  }

  /** The node lies between the two parts of the frame. */
  predicate InPiece(f: Fragment, node: Tree) {
    f.start <= f.end && |f.frame.prefix| <= node.start && node.end <= |f.frame.prefix| + (f.end - f.start)
  }

  lemma InPieceIff(input: WalkInput, f: Fragment, node: Tree)
    requires IsPiece(input, f)
    ensures InFrame(node, f) <==> InPiece(f, node)
  {
    assert |f.wrapped| == |f.frame.prefix| + (f.end - f.start) + |f.frame.suffix|;
  }

  /** A node in the frame is a range of the source: the same bytes, at the offset of the piece. */
  lemma NodeInSource(input: WalkInput, f: Fragment, node: Tree)
    requires IsPiece(input, f) && InFrame(node, f) && node.start <= node.end
    ensures SameText(input, SourceOffset(f, node.start), SourceOffset(f, node.end), f, node)
  {
    var start, end, before := SourceOffset(f, node.start), SourceOffset(f, node.end), |f.frame.prefix|;
    assert |f.wrapped| == before + (f.end - f.start) + |f.frame.suffix|;
    assert f.wrapped[node.start..node.end] == input.source[f.start..f.end][node.start - before..node.end - before];
    assert input.source[f.start..f.end][node.start - before..node.end - before] == input.source[start..end];
  }

  /** What is opened is the text asked for, parsed in the frame, under the caller given. */
  lemma OpenedPiece(
    input: WalkInput, late: Deadline, start: nat, end: nat, macroDepth: nat, caller: Caller, scan: Scan)
    requires Open(input, late, start, end, macroDepth, caller, scan).1.Some?
    ensures var x := Open(input, late, start, end, macroDepth, caller, scan).1.value;
            && IsPiece(input, x.fragment) && x.fragment.start == start && x.fragment.end == end
            && input.reparse(x.fragment.wrapped) == Some(x.node)
            && x.caller == caller && x.depth == 0 && x.fragment.macroDepth == macroDepth < 64
  {
  }

  // ----- rows

  /** A recovered row: the range and the span of its call in the source, and what the call says. */
  ghost predicate IsRowOf(input: WalkInput, x: Pending, row: MacroRow) {
    && SameText(input, row.start, row.end, x.fragment, x.node)
    && Holds32(input.position(row.start)) && Holds32(input.position(row.end))
    && IsSpan(row.start, row.end, input.position(row.start), input.position(row.end), row.span)
    && x.caller == Ok(row.site.caller) && row.site.macroCall == (x.node.kind == MacroInvocation)
    && exists callee ::
         IsCallee(x.node, row.site.macroCall, Some(callee)) && SaysCallee(callee, x.fragment.wrapped, row.site)
  }

  lemma SiteSays(x: Pending, callee: Tree, text: Text, name: Option<Text>, site: CallSite)
    requires TextOf(callee, x.fragment.wrapped) == Ok(text) && SimpleName(callee, x.fragment.wrapped) == Ok(name)
    requires FragmentSite(x, callee, text, name) == Some(site)
    ensures SaysCallee(callee, x.fragment.wrapped, site)
    ensures x.caller == Ok(site.caller) && site.macroCall == (x.node.kind == MacroInvocation)
  {
    TextIs(callee, x.fragment.wrapped, text);
    QualifiedIs(callee, x.fragment.wrapped, site.qualified);
    SimpleNameIs(callee, x.fragment.wrapped, name);
    BangsTrimmedIs(text, site.calleeName);
  }

  lemma RowIs(input: WalkInput, x: Pending, row: MacroRow)
    requires IsPiece(input, x.fragment) && InFrame(x.node, x.fragment) && x.node.start <= x.node.end
    requires FragmentRow(input, x) == Emits(row)
    ensures IsRowOf(input, x, row)
  {
    var wrapped := x.fragment.wrapped;
    NodeInSource(input, x.fragment, x.node);
    CheckedSpanIs(row.start, row.end, input.position(row.start), input.position(row.end));
    CalleeIs(x.node, x.node.kind.MacroInvocation?);
    var callee := CalleeNode(x.node, x.node.kind.MacroInvocation?).value;
    SiteSays(x, callee, TextOf(callee, wrapped).value, SimpleName(callee, wrapped).value, row.site);
  }

  /** Only a call with a position past 32 bits fails the file. */
  lemma PastRangeIsPast(input: WalkInput, x: Pending)
    requires IsPiece(input, x.fragment) && InPiece(x.fragment, x.node) && x.node.start <= x.node.end
    requires FragmentRow(input, x).PastRange?
    ensures exists start, end :: SameText(input, start, end, x.fragment, x.node)
                                 && !(Holds32(input.position(start)) && Holds32(input.position(end)))
  {
    InPieceIff(input, x.fragment, x.node);
    NodeInSource(input, x.fragment, x.node);
  }

  /** A call in the frame without a callee is the only one that is passed over in silence. */
  lemma NoRowIff(input: WalkInput, x: Pending)
    requires IsPiece(input, x.fragment) && InFrame(x.node, x.fragment) && x.node.start <= x.node.end
    ensures FragmentRow(input, x).NoRow? <==> IsCallee(x.node, x.node.kind == MacroInvocation, None)
  {
    NodeInSource(input, x.fragment, x.node);
    CalleeIs(x.node, x.node.kind.MacroInvocation?);
    var found := CalleeNode(x.node, x.node.kind.MacroInvocation?);
    if IsCallee(x.node, x.node.kind == MacroInvocation, None) {
      OnlyOneIsFirst(
        x.node.children,
        Named(if x.node.kind.MacroInvocation? then Any()
              else OfKinds({Identifier, ScopedIdentifier, FieldExpression, GenericFunction})),
        found, None);
    }
  }

  // ----- fragments inside fragments

  lemma {:induction false} FirstTokensIs(nodes: seq<Tree>)
    ensures IsFirst(nodes, OfKinds({TokenTree}), FirstTokens(nodes))
    decreases |nodes|
  {
    if nodes != [] {
      if nodes[0].kind == TokenTree {
        FirstIsHere(nodes, OfKinds({TokenTree}));
      } else {
        FirstTokensIs(nodes[1..]);
        FirstIsLater(nodes, OfKinds({TokenTree}), FirstTokens(nodes[1..]));
      }
    }
  }

  /** The token tree of a macro: its first named child of that kind. */
  ghost predicate IsTokens(node: Tree, tokens: Option<Tree>) {
    IsFirst(node.children, Named(OfKinds({TokenTree})), tokens)
  }

  lemma TokensIs(node: Tree)
    ensures IsTokens(node, FirstTokens(Kids(node)))
  {
    FirstTokensIs(Kids(node));
    FirstOfNamed(node.children, OfKinds({TokenTree}), FirstTokens(Kids(node)));
  }

  /** Every macro in the frame with something in its token tree is opened. */
  lemma NestedRangeIff(input: WalkInput, x: Pending)
    requires IsPiece(input, x.fragment) && Placed(x.node) && InPiece(x.fragment, x.node)
    ensures NestedRange(x).Some? <==>
            x.node.kind == MacroInvocation && exists tokens :: IsTokens(x.node, Some(tokens)) && tokens.start + 2 < tokens.end
  {
    InPieceIff(input, x.fragment, x.node);
    TokensIs(x.node);
    var found := FirstTokens(Kids(x.node));
    forall tokens | IsTokens(x.node, Some(tokens)) ensures found == Some(tokens) {
      OnlyOneIsFirst(x.node.children, Named(OfKinds({TokenTree})), found, Some(tokens));
    }
    if found.Some? {
      assert found.value in x.node.children;
      ChildPlaced(x.node.children, x.node.start, x.node.end, found.value);
      assert |x.fragment.wrapped| == |x.fragment.frame.prefix| + (x.fragment.end - x.fragment.start) + |x.fragment.frame.suffix|;
    }
  }

  /** `y` is the root of what a macro in the frame holds between the delimiters of its token tree. */
  ghost predicate IsNested(input: WalkInput, x: Pending, y: Pending) {
    && x.node.kind == MacroInvocation && InPiece(x.fragment, x.node)
    && IsPiece(input, y.fragment) && input.reparse(y.fragment.wrapped) == Some(y.node)
    && y.caller == x.caller && y.depth == 0 && y.fragment.macroDepth == x.fragment.macroDepth + 1
    && exists tokens :: IsTokens(x.node, Some(tokens))
         && y.fragment.start + |x.fragment.frame.prefix| == x.fragment.start + tokens.start + 1
         && y.fragment.end + 1 + |x.fragment.frame.prefix| == x.fragment.start + tokens.end
         && x.fragment.start <= y.fragment.start < y.fragment.end <= x.fragment.end
  }

  lemma NestedIs(input: WalkInput, x: Pending)
    requires IsPiece(input, x.fragment) && Placed(x.node) && Opens(input, x).Some?
    ensures IsNested(input, x, Opens(input, x).value)
  {
    var tokens := FirstTokens(Kids(x.node)).value;
    InPieceIff(input, x.fragment, x.node);
    TokensIs(x.node);
    assert tokens in x.node.children;
    ChildPlaced(x.node.children, x.node.start, x.node.end, tokens);
    var (start, end) := NestedRange(x).value;
    OpenedPiece(input, Never(), start, end, x.fragment.macroDepth + 1, x.caller, FreshScan(0));
  }

  /** A scan's nodes lie in pieces of the source within a range. */
  predicate Within(input: WalkInput, x: Pending, start: nat, end: nat) {
    IsPiece(input, x.fragment) && Placed(x.node) && start <= x.fragment.start && x.fragment.end <= end
  }

  lemma TurnedWithin(input: WalkInput, x: Pending, turn: Turn, start: nat, end: nat)
    requires ParsesPlaced(input) && CanScan(x) && CanTurn(input, x, turn) && Within(input, x, start, end)
    ensures Within(input, Turned(input, x, turn), start, end)
  {
    match turn
    case IntoMacro => NestedIs(input, x);
    case IntoKid(i) =>
      assert Kids(x.node)[i] in x.node.children;
      ChildPlaced(x.node.children, x.node.start, x.node.end, Kids(x.node)[i]);
  }

  lemma {:induction false} LedWithin(input: WalkInput, x: Pending, way: Way, start: nat, end: nat)
    requires ParsesPlaced(input) && CanScan(x) && Leads(input, x, way) && Within(input, x, start, end)
    ensures Within(input, LedTo(input, x, way), start, end)
    decreases |way|
  {
    if way != [] {
      TurnedWithin(input, x, way[0], start, end);
      LedWithin(input, Turned(input, x, way[0]), way[1..], start, end);
    }
  }

  // ----- callers

  /** A function in the frame, left for one of its children. */
  predicate Encloses(input: WalkInput, x: Pending, way: Way, k: nat)
    requires CanScan(x) && Leads(input, x, way) && k < |way|
  {
    LeadsBefore(input, x, way, k);
    var z := LedTo(input, x, way[..k]);
    way[k].IntoKid? && InFrame(z.node, z.fragment)
    && z.node.kind in {FunctionItem, FunctionSignatureItem, ClosureExpression, ImplItem, TraitItem}
  }

  lemma {:induction false} LeadsBefore(input: WalkInput, x: Pending, way: Way, k: nat)
    requires CanScan(x) && Leads(input, x, way) && k <= |way|
    ensures Leads(input, x, way[..k])
    decreases k
  {
    if k > 0 {
      LeadsBefore(input, Turned(input, x, way[0]), way[1..], k - 1);
      assert way[..k][1..] == way[1..][..k - 1];
    }
  }

  /** One turn further on, the same functions enclose. */
  lemma EnclosesLater(input: WalkInput, x: Pending, way: Way, k: nat)
    requires CanScan(x) && Leads(input, x, way) && 0 < k < |way|
    ensures Encloses(input, x, way, k) == Encloses(input, Turned(input, x, way[0]), way[1..], k - 1)
    ensures Leads(input, x, way[..k]) && Leads(input, Turned(input, x, way[0]), way[1..][..k - 1])
    ensures LedTo(input, x, way[..k]) == LedTo(input, Turned(input, x, way[0]), way[1..][..k - 1])
  {
    LeadsBefore(input, x, way, k);
    assert way[..k][1..] == way[1..][..k - 1];
  }

  /** On a way out of no function the caller is the one it started with. */
  lemma {:induction false} CallerIsOuter(input: WalkInput, x: Pending, way: Way)
    requires CanScan(x) && Leads(input, x, way)
    requires forall k :: 0 <= k < |way| ==> !Encloses(input, x, way, k)
    ensures LedTo(input, x, way).caller == x.caller
    decreases |way|
  {
    if way != [] {
      assert !Encloses(input, x, way, 0) && way[..0] == [];
      forall k | 0 <= k < |way| - 1 ensures !Encloses(input, Turned(input, x, way[0]), way[1..], k) {
        EnclosesLater(input, x, way, k + 1);
      }
      CallerIsOuter(input, Turned(input, x, way[0]), way[1..]);
    }
  }

  /** On any other it is the name of the last function the way came out of. */
  lemma {:induction false} CallerIsNearest(input: WalkInput, x: Pending, way: Way, k: nat)
    requires CanScan(x) && Leads(input, x, way) && k < |way| && Encloses(input, x, way, k)
    requires forall j :: k < j < |way| ==> !Encloses(input, x, way, j)
    ensures Leads(input, x, way[..k])
    ensures var z := LedTo(input, x, way[..k]);
            LedTo(input, x, way).caller == FunctionName(z.node, z.fragment.wrapped)
    decreases |way|
  {
    var next := Turned(input, x, way[0]);
    LeadsBefore(input, x, way, k);
    if k == 0 {
      assert way[..0] == [];
      forall j | 0 <= j < |way[1..]| ensures !Encloses(input, next, way[1..], j) {
        EnclosesLater(input, x, way, j + 1);
      }
      CallerIsOuter(input, next, way[1..]);
    } else {
      EnclosesLater(input, x, way, k);
      forall j | k - 1 < j < |way[1..]| ensures !Encloses(input, next, way[1..], j) {
        EnclosesLater(input, x, way, j + 1);
      }
      CallerIsNearest(input, next, way[1..], k - 1);
    }
  }

  // ----- a whole macro

  /** The root of a macro's own fragment holds what is between the delimiters of its token tree. */
  lemma RootIs(input: WalkInput, node: Tree, caller: Option<Text>)
    requires MacroRoot(input, node, caller).Some?
    ensures var root := MacroRoot(input, node, caller).value;
            && IsPiece(input, root.fragment) && input.reparse(root.fragment.wrapped) == Some(root.node)
            && root.caller == Ok(caller) && root.depth == 0 && root.fragment.macroDepth == 0
            && exists tokens :: IsTokens(node, Some(tokens))
                 && root.fragment.start == tokens.start + 1 && root.fragment.end == Minus(tokens.end, 1)
  {
    TokensIs(node);
    var tokens := FirstTokens(Kids(node)).value;
    OpenedPiece(input, Never(), tokens.start + 1, Minus(tokens.end, 1), 0, Ok(caller), FreshScan(0));
  }

  /** The row of a spot of a macro's scan lies in that macro. */
  lemma SpotRowLies(input: WalkInput, root: Pending, t: Spot, row: MacroRow)
    requires ParsesPlaced(input) && IsPiece(input, root.fragment) && Placed(root.node)
    requires CanScan(root) && IsSpot(input, root, t) && RowAt(input, t.x) == Some(row)
    ensures t.x.node.kind in {CallExpression, MacroInvocation} && InPiece(t.x.fragment, t.x.node) && IsRowOf(input, t.x, row)
    ensures root.fragment.start <= row.start <= row.end <= root.fragment.end
  {
    LedWithin(input, root, t.way, root.fragment.start, root.fragment.end);
    InPieceIff(input, t.x.fragment, t.x.node);
    RowIs(input, t.x, row);
  }

  /** Every row of a macro is that of a call on a way into it, and lies between its token tree's delimiters. */
  lemma RowsLieInMacro(input: WalkInput, node: Tree, caller: Option<Text>, k: nat) returns (root: Pending, way: Way)
    requires ParsesPlaced(input) && !RowsIn(input, node, caller).overflow
    requires k < |RowsIn(input, node, caller).rows|
    ensures MacroRoot(input, node, caller) == Some(root) && Leads(input, root, way)
    ensures var x, row := LedTo(input, root, way), RowsIn(input, node, caller).rows[k];
            && x.node.kind in {CallExpression, MacroInvocation} && InPiece(x.fragment, x.node) && IsRowOf(input, x, row)
            && root.fragment.start <= row.start <= row.end <= root.fragment.end
  {
    RowsInAreSpots(input, node, caller);
    root := MacroRoot(input, node, caller).value;
    RootIs(input, node, caller);
    var spots := Spots(input, Spot(root, []));
    var i := GatheredFrom(spots, RowOfSpot(input), k);
    ScanOrder(input, root);
    assert spots[i] in spots;
    way := spots[i].way;
    SpotRowLies(input, root, spots[i], RowsIn(input, node, caller).rows[k]);
  }

  /** A call on any way into a macro has its row, if it has a callee: a scan that is not reported as capped has missed none. */
  lemma CallsInMacroHaveRows(input: WalkInput, node: Tree, caller: Option<Text>, root: Pending, way: Way)
    requires ParsesPlaced(input) && !RowsIn(input, node, caller).capped && !RowsIn(input, node, caller).overflow
    requires MacroRoot(input, node, caller) == Some(root) && Leads(input, root, way)
    requires var x := LedTo(input, root, way);
             x.node.kind in {CallExpression, MacroInvocation} && InPiece(x.fragment, x.node)
             && !IsCallee(x.node, x.node.kind == MacroInvocation, None)
    ensures exists row :: row in RowsIn(input, node, caller).rows && IsRowOf(input, LedTo(input, root, way), row)
  {
    RowsInAreSpots(input, node, caller);
    RootIs(input, node, caller);
    ScanOrder(input, root);
    var x, spots := LedTo(input, root, way), Spots(input, Spot(root, []));
    var i :| 0 <= i < |spots| && spots[i] == Spot(x, way);
    LedWithin(input, root, way, root.fragment.start, root.fragment.end);
    InPieceIff(input, x.fragment, x.node);
    NoRowIff(input, x);
    assert spots[i] in spots && IsInRange(input, x) && !Caps(input, x);
    GatheredHas(spots, RowOfSpot(input), i);
    RowIs(input, x, RowAt(input, x).value);
  }
}
