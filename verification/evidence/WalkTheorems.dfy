/** What a complete walk of one tree yields, said of the tree. */
module WalkTheorems {
  import opened Sequences
  import opened SyntaxTree
  import opened Evidence
  import opened Calls
  import opened Walks
  import opened WalkFacts
  import opened Extract

  /** The rows of a walk of `tree` that nothing cut short or failed. */
  ghost predicate Complete(w: Walker, input: WalkInput, late: Deadline, tree: Tree, reading: nat) {
    late.budget.None? && !WalkOf(w, input, late, tree, Fresh(reading)).overflow
  }

  lemma {:induction false} OfferIsAmong(w: Walker, input: WalkInput, sites: seq<Site>, k: nat, row: Row)
    requires k < |sites| && row in Offers(w, input, sites[k])
    ensures row in AllOffers(w, input, sites)
    decreases k
  {
    if k > 0 {
      OfferIsAmong(w, input, sites[1..], k - 1, row);
    }
  }

  lemma {:induction false} OfferHasSite(w: Walker, input: WalkInput, sites: seq<Site>, row: Row) returns (k: nat)
    requires row in AllOffers(w, input, sites)
    ensures k < |sites| && row in Offers(w, input, sites[k])
    decreases |sites|
  {
    if row in Offers(w, input, sites[0]) {
      k := 0;
    } else {
      k := OfferHasSite(w, input, sites[1..], row);
      k := k + 1;
    }
  }

  /** The first row of a range among `rows`. */
  lemma {:induction false} FirstOfRange(rows: seq<Row>, k: nat) returns (first: nat)
    requires k < |rows|
    ensures first <= k && RangeOf(rows[first]) == RangeOf(rows[k])
    ensures forall j :: 0 <= j < first ==> RangeOf(rows[j]) != RangeOf(rows[k])
    decreases k
  {
    if j :| 0 <= j < k && RangeOf(rows[j]) == RangeOf(rows[k]) {
      first := FirstOfRange(rows, j);
    } else {
      first := k;
    }
  }

  /**
   * The call rows of a tree: one per byte range, and every call that is visited and can be
   * sliced has its range among them, as has every row a macro yields.
   */
  lemma CallRowsCoverCalls(input: WalkInput, late: Deadline, tree: Tree, reading: nat, k: nat, row: Row)
    requires Complete(CallWalker, input, late, tree, reading)
    requires k < |PreOrder(Root(tree))| && row in Offers(CallWalker, input, PreOrder(Root(tree))[k])
    ensures var rows := RowsOf(WalkOf(CallWalker, input, late, tree, Fresh(reading)).items);
            DistinctRanges(rows) && exists kept :: kept in rows && RangeOf(kept) == RangeOf(row)
  {
    var sites := PreOrder(Root(tree));
    var offers := AllOffers(CallWalker, input, sites);
    CompleteWalk(CallWalker, input, late, sites, Fresh(reading));
    OneRowPerRange(offers, {});
    OfferIsAmong(CallWalker, input, sites, k, row);
    var i :| 0 <= i < |offers| && offers[i] == row;
    var first := FirstOfRange(offers, i);
    FirstOfferKept(offers, {}, first);
    var rows := RowsOf(WalkOf(CallWalker, input, late, tree, Fresh(reading)).items);
    assert rows == [] + FirstPerRange(offers, {});
    assert offers[first] in rows;
  }

  /** A visited call node whose texts slice offers its own row. */
  lemma CallOffersItself(input: WalkInput, s: Site)
    requires |s.above| < MAX_WALK_DEPTH && IsCallKind(s.node.kind)
    requires CallParts(s.node, input.source, s.node.kind.MacroInvocation?, EnclosingCaller(s.above, input.source)).Ok?
    ensures Offers(CallWalker, input, s) != []
    ensures RangeOf(Offers(CallWalker, input, s)[0]) == (s.node.start, s.node.end)
  {
  }

  /** Whether a site is a whole import statement, not a part of one. */
  predicate IsWholeImport(s: Site) {
    IsImportKind(s.node.kind) && !(s.above != [] && IsImportKind(s.above[|s.above| - 1].kind))
  }

  /**
   * The import rows of a tree are those of its whole import statements, in order: an
   * import-shaped node under an import-shaped node gives none.
   */
  lemma ImportRowsAreWhole(input: WalkInput, late: Deadline, tree: Tree, reading: nat)
    requires Complete(ImportWalker, input, late, tree, reading)
    ensures RowsOf(WalkOf(ImportWalker, input, late, tree, Fresh(reading)).items)
         == ImportRows(input, PreOrder(Root(tree)))
  {
    CompleteWalk(ImportWalker, input, late, PreOrder(Root(tree)), Fresh(reading));
    ImportOffersAreWhole(input, PreOrder(Root(tree)));
    var offers := AllOffers(ImportWalker, input, PreOrder(Root(tree)));
    assert [] + offers == offers;
  }

  function ImportRows(input: WalkInput, sites: seq<Site>): seq<Row> {
    if sites == [] then []
    else
      var s := sites[0];
      (if |s.above| < MAX_WALK_DEPTH && IsWholeImport(s) && Sliceable(s.node, input.source)
       then [NodeRow(input, s.node, ImportPayload(input, TextOf(s.node, input.source).value))] else [])
      + ImportRows(input, sites[1..])
  }

  lemma {:induction false} ImportOffersAreWhole(input: WalkInput, sites: seq<Site>)
    ensures AllOffers(ImportWalker, input, sites) == ImportRows(input, sites)
    decreases |sites|
  {
    if sites != [] {
      ImportOffersAreWhole(input, sites[1..]);
    }
  }

  /** An import statement that is emitted though an import-shaped node lies somewhere above it. */
  predicate IsNestedEmit(input: WalkInput, s: Site) {
    |s.above| < MAX_WALK_DEPTH && IsWholeImport(s) && Sliceable(s.node, input.source)
    && exists a :: a in s.above && IsImportKind(a.kind)
  }

  /** The rows if only outermost import-shaped nodes gave one. */
  function OutermostRows(input: WalkInput, sites: seq<Site>): seq<Row> {
    if sites == [] then []
    else
      (if IsNestedEmit(input, sites[0]) then [] else ImportRows(input, [sites[0]])) + OutermostRows(input, sites[1..])
  }

  predicate NoNestedEmit(input: WalkInput, sites: seq<Site>) {
    sites == [] || (!IsNestedEmit(input, sites[0]) && NoNestedEmit(input, sites[1..]))
  }

  lemma {:induction false} NestedIsFound(input: WalkInput, sites: seq<Site>, s: Site)
    requires s in sites && IsNestedEmit(input, s)
    ensures !NoNestedEmit(input, sites)
    decreases |sites|
  {
    if s != sites[0] {
      NestedIsFound(input, sites[1..], s);
    }
  }

  lemma ImportRowsCons(input: WalkInput, sites: seq<Site>)
    requires sites != []
    ensures ImportRows(input, sites) == ImportRows(input, [sites[0]]) + ImportRows(input, sites[1..])
    ensures IsNestedEmit(input, sites[0]) ==> |ImportRows(input, [sites[0]])| == 1
  {
    assert ImportRows(input, [sites[0]][1..]) == [];
  }

  /**
   * The outermost node owns the row, as the comments say, exactly where no import lies below
   * another with a node of a different kind between.
   */
  lemma {:induction false} OutermostIff(input: WalkInput, sites: seq<Site>)
    ensures |OutermostRows(input, sites)| <= |ImportRows(input, sites)|
    ensures ImportRows(input, sites) == OutermostRows(input, sites) <==> NoNestedEmit(input, sites)
    decreases |sites|
  {
    if sites != [] {
      OutermostIff(input, sites[1..]);
      ImportRowsCons(input, sites);
      SameHead(ImportRows(input, [sites[0]]), ImportRows(input, sites[1..]), OutermostRows(input, sites[1..]));
    }
  }

  /** An import-shaped node over a node of another kind over an import-shaped node. */
  function ImportUnderOther(): Tree {
    Node(ImportDeclaration, [Node(OtherKind("block"), [Node(ImportStatement, [])])])
  }

  function Node(kind: Kind, children: seq<Tree>): Tree {
    Tree(kind, true, OtherField(""), 0, 0, 0, 0, children)
  }

  /** Both imports of that tree are emitted: the inner one is not passed over. */
  lemma InnerImportIsEmitted(input: WalkInput)
    ensures ImportRows(input, PreOrder(Root(ImportUnderOther()))) != OutermostRows(input, PreOrder(Root(ImportUnderOther())))
  {
    var inner := Node(ImportStatement, []);
    var block := Node(OtherKind("block"), [inner]);
    var tree := Node(ImportDeclaration, [block]);
    assert NamedOf([inner][1..]) == [] && NamedOf([block][1..]) == [];
    assert Kids(block) == [inner] && Kids(tree) == [block];
    var middle := Child(Root(tree), 0);
    var s := Child(middle, 0);
    assert [0, 0][1..] == [0] && [0][1..] == [];
    assert Reaches(s, []) && Reaches(middle, [0]) && Reaches(Root(tree), [0, 0]);
    assert Follow(Root(tree), [0, 0]) == Follow(middle, [0]) == Follow(s, []) == s;
    PreOrderComplete(Root(tree), [0, 0]);
    assert s.above == [tree, block] && tree in s.above;
    assert IsNestedEmit(input, s);
    NestedIsFound(input, PreOrder(Root(tree)), s);
    OutermostIff(input, PreOrder(Root(tree)));
  }

  /** A named node lies exactly at the depth of the cut. */
  ghost predicate HasDeepNode(tree: Tree) {
    exists p: Path :: |p| == 512 && Reaches(Root(tree), p)
  }

  /**
   * A complete walk reports truncation exactly when the tree has a named node at the cut, or
   * a visited node failed to slice or had its macro scan capped.
   */
  lemma TruncatedIff(w: Walker, input: WalkInput, late: Deadline, tree: Tree, reading: nat)
    requires Complete(w, input, late, tree, reading)
    ensures WalkOf(w, input, late, tree, Fresh(reading)).truncated <==>
            HasDeepNode(tree) || exists s :: s in PreOrder(Root(tree)) && |s.above| < MAX_WALK_DEPTH && CutsOff(w, input, s)
  {
    var sites := PreOrder(Root(tree));
    CompleteWalk(w, input, late, sites, Fresh(reading));
    WalkOrder(tree);
    if HasDeepNode(tree) {
      var p: Path :| |p| == MAX_WALK_DEPTH && Reaches(Root(tree), p);
      assert Follow(Root(tree), p) in sites && CutsOff(w, input, Follow(Root(tree), p));
    }
    if s :| s in sites && CutsOff(w, input, s) && |s.above| >= MAX_WALK_DEPTH {
      assert Reaches(Root(tree), s.path) && s == Follow(Root(tree), s.path);
      assert |s.path| == MAX_WALK_DEPTH;
    }
  }
}
