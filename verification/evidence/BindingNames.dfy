/** Which identifier names a binding, and when that is the first one in document order. */
module BindingNames {
  import opened Sequences
  import opened SyntaxTree
  import opened Evidence
  import opened Bindings

  /** An identifier below a node, and the index of the named child taken at each level to it. */
  datatype Found = Found(path: Path, node: Tree)

  /** `found` seen from one level up, through child `i`. */
  function Through(i: nat, found: Option<Found>): Option<Found> {
    match found
    case None => None
    case Some(f) => Some(Found([i] + f.path, f.node))
  }

  /** The index of the first identifier at or after `i`, or the length. */
  function DirectIndex(nodes: seq<Tree>, i: nat): (d: nat)
    requires i <= |nodes|
    ensures i <= d <= |nodes|
    ensures d < |nodes| ==> IsIdentifierKind(nodes[d].kind)
    decreases |nodes| - i
  {
    if i == |nodes| || IsIdentifierKind(nodes[i].kind) then i else DirectIndex(nodes, i + 1)
  }

  /** Level by level: a node's own children first, then what each of them has below it. */
  function Picked(node: Tree, levels: nat): Option<Found>
    decreases levels, 0, 0
  {
    if levels == 0 then None
    else
      var kids, d := Kids(node), DirectIndex(Kids(node), 0);
      if d < |kids| then Some(Found([d], kids[d])) else PickedBelow(kids, levels - 1, 0)
  }

  function PickedBelow(nodes: seq<Tree>, levels: nat, i: nat): Option<Found>
    decreases levels, 1, |nodes| - i
  {
    if i >= |nodes| then None
    else if Picked(nodes[i], levels).Some? then Through(i, Picked(nodes[i], levels))
    else PickedBelow(nodes, levels, i + 1)
  }

  /** The first identifier in document order among `nodes` from `i` on and fewer than `levels` levels below them. */
  function FirstInOrder(nodes: seq<Tree>, levels: nat, i: nat): Option<Found>
    decreases levels, |nodes| - i
  {
    if levels == 0 || i >= |nodes| then None
    else if IsIdentifierKind(nodes[i].kind) then Some(Found([i], nodes[i]))
    else if FirstInOrder(Kids(nodes[i]), levels - 1, 0).Some? then Through(i, FirstInOrder(Kids(nodes[i]), levels - 1, 0))
    else FirstInOrder(nodes, levels, i + 1)
  }

  /** A path from `nodes` down to an identifier. */
  predicate LeadsToIdentifier(nodes: seq<Tree>, path: Path)
    decreases |path|
  {
    path != [] && path[0] < |nodes| &&
    if |path| == 1 then IsIdentifierKind(nodes[path[0]].kind) else LeadsToIdentifier(Kids(nodes[path[0]]), path[1..])
  }

  /** `first` is `path`, or comes before it; it starts at child `i` or later. */
  predicate Leads(first: Path, path: Path, i: nat) {
    first != [] && i <= first[0] && (path == first || Before(first, path))
  }

  lemma LeadsUnder(i: nat, first: Path, path: Path)
    requires Leads(first, path, 0)
    ensures Leads([i] + first, [i] + path, i)
  {
    BeforeExtends([i], first, path);
  }

  lemma SelfLeads(i: nat, path: Path)
    requires path != [] && i <= path[0]
    ensures Leads([i], path, i)
  {
    if path[0] == i && |path| > 1 {
      assert Before([i][1..], path[1..]);
    }
  }

  lemma EarlierLeads(i: nat, below: Path, path: Path)
    requires path != [] && i < path[0]
    ensures Leads([i] + below, path, i)
  {
  }

  /** No identifier within reach comes before it in document order. */
  lemma {:induction false} FirstComesFirst(nodes: seq<Tree>, levels: nat, i: nat, path: Path)
    requires LeadsToIdentifier(nodes, path) && |path| <= levels && i <= path[0]
    ensures FirstInOrder(nodes, levels, i).Some?
    ensures Leads(FirstInOrder(nodes, levels, i).value.path, path, i)
    decreases levels, |nodes| - i
  {
    if IsIdentifierKind(nodes[i].kind) {
      SelfLeads(i, path);
    } else {
      var below := FirstInOrder(Kids(nodes[i]), levels - 1, 0);
      if path[0] == i {
        FirstComesFirst(Kids(nodes[i]), levels - 1, 0, path[1..]);
        assert path == [i] + path[1..];
        LeadsUnder(i, below.value.path, path[1..]);
      } else if below.None? {
        FirstComesFirst(nodes, levels, i + 1, path);
      } else {
        EarlierLeads(i, below.value.path, path);
      }
    }
  }

  // ----- the identifier the code picks

  /** What the code reads off a picked identifier. */
  function Read(found: Option<Found>, source: Text): Result<Option<Text>, TextRangeError> {
    match found
    case None => Ok(None)
    case Some(f) => NameText(f.node, source)
  }

  lemma {:induction false} DirectIsFirst(nodes: seq<Tree>, i: nat)
    requires i <= |nodes|
    ensures var d := DirectIndex(nodes, i);
            FirstIdentifier(nodes[i..]) == if d < |nodes| then Some(nodes[d]) else None
    decreases |nodes| - i
  {
    if i < |nodes| {
      assert nodes[i..][1..] == nodes[i + 1..];
      if !IsIdentifierKind(nodes[i].kind) {
        DirectIsFirst(nodes, i + 1);
      }
    }
  }

  lemma DescendantStep(node: Tree, source: Text, depth: nat)
    requires depth < 3
    ensures var kids, d := Kids(node), DirectIndex(Kids(node), 0);
            FirstDescendant(node, source, depth) ==
            (if d < |kids| then NameText(kids[d], source) else FirstAmong(kids, source, depth + 1))
  {
    DirectIsFirst(Kids(node), 0);
    assert Kids(node)[0..] == Kids(node);
  }

  lemma PickedStep(node: Tree, source: Text, levels: nat)
    requires levels > 0
    ensures var kids, d := Kids(node), DirectIndex(Kids(node), 0);
            Read(Picked(node, levels), source) ==
            (if d < |kids| then NameText(kids[d], source) else Read(PickedBelow(kids, levels - 1, 0), source))
  {
  }

  lemma {:induction false} DescendantIsPicked(node: Tree, source: Text, depth: nat, levels: nat)
    requires depth + levels == 3
    ensures FirstDescendant(node, source, depth) == Read(Picked(node, levels), source)
    decreases levels, 0, 0
  {
    if levels > 0 {
      var kids := Kids(node);
      DescendantStep(node, source, depth);
      PickedStep(node, source, levels);
      if DirectIndex(kids, 0) == |kids| {
        AllIsPicked(kids, source, depth + 1, levels - 1);
      }
    }
  }

  lemma AllIsPicked(nodes: seq<Tree>, source: Text, depth: nat, levels: nat)
    requires depth + levels == 3
    ensures FirstAmong(nodes, source, depth) == Read(PickedBelow(nodes, levels, 0), source)
    decreases levels, 2, 0
  {
    assert nodes[0..] == nodes;
    AmongIsPicked(nodes, source, depth, levels, 0);
  }

  lemma {:induction false} AmongIsPicked(nodes: seq<Tree>, source: Text, depth: nat, levels: nat, i: nat)
    requires depth + levels == 3 && i <= |nodes|
    ensures FirstAmong(nodes[i..], source, depth) == Read(PickedBelow(nodes, levels, i), source)
    decreases levels, 1, |nodes| - i
  {
    if i < |nodes| {
      assert nodes[i..][1..] == nodes[i + 1..];
      DescendantIsPicked(nodes[i], source, depth, levels);
      ReadThrough(i, Picked(nodes[i], levels), source);
      AmongIsPicked(nodes, source, depth, levels, i + 1);
    }
  }

  lemma ReadThrough(i: nat, found: Option<Found>, source: Text)
    ensures Read(Through(i, found), source) == Read(found, source)
    ensures Read(found, source) == Ok(None) <==> found.None?
  {
  }

  /** The name of a binding is the text, or the slice error, of the identifier picked level by level. */
  lemma NameIsPicked(node: Tree, source: Text)
    ensures IdentifierName(node, source) == Read(Picked(node, 3), source)
  {
    DirectIsFirst(Kids(node), 0);
    assert Kids(node)[0..] == Kids(node);
    PickedStep(node, source, 3);
    DescendantIsPicked(node, source, 0, 3);
  }

  /** There is no name exactly when no identifier lies within reach. */
  lemma NamelessIff(node: Tree, source: Text, levels: nat)
    ensures Read(Picked(node, levels), source) == Ok(None) <==> FirstInOrder(Kids(node), levels, 0).None?
  {
    PickedFirstIff(node, levels);
  }

  // ----- against document order

  /** No child from index `i` to before `end` holds an identifier within reach. */
  predicate NoneBelow(nodes: seq<Tree>, levels: nat, i: nat, end: nat)
    requires end <= |nodes|
    decreases end - i
  {
    i >= end || (FirstInOrder(Kids(nodes[i]), levels, 0).None? && NoneBelow(nodes, levels, i + 1, end))
  }

  /**
   * At each level entered, no child before the first direct identifier holds one within
   * reach; where there is no direct one, the same holds of the first child that holds any.
   */
  predicate InOrder(node: Tree, levels: nat)
    decreases levels, 0, 0
  {
    levels > 0 ==>
      var kids, d := Kids(node), DirectIndex(Kids(node), 0);
      if d < |kids| then NoneBelow(kids, levels - 1, 0, d) else InOrderBelow(kids, levels - 1, 0)
  }

  predicate InOrderBelow(nodes: seq<Tree>, levels: nat, i: nat)
    decreases levels, 1, |nodes| - i
  {
    i < |nodes| ==>
      if FirstInOrder(Kids(nodes[i]), levels, 0).Some? then InOrder(nodes[i], levels) else InOrderBelow(nodes, levels, i + 1)
  }

  /** Where no child before the first direct identifier holds one, document order starts there. */
  lemma {:induction false} FirstSkips(nodes: seq<Tree>, levels: nat, i: nat)
    requires levels > 0 && i <= |nodes| && DirectIndex(nodes, i) < |nodes|
    requires NoneBelow(nodes, levels - 1, i, DirectIndex(nodes, i))
    ensures FirstInOrder(nodes, levels, i) == Some(Found([DirectIndex(nodes, i)], nodes[DirectIndex(nodes, i)]))
    decreases |nodes| - i
  {
    if !IsIdentifierKind(nodes[i].kind) {
      FirstSkips(nodes, levels, i + 1);
    }
  }

  /** Where one does, document order picks before the direct identifier. */
  lemma {:induction false} FirstStops(nodes: seq<Tree>, levels: nat, i: nat, end: nat)
    requires levels > 0 && i <= end <= |nodes| && !NoneBelow(nodes, levels - 1, i, end)
    ensures FirstInOrder(nodes, levels, i).Some?
    ensures var first := FirstInOrder(nodes, levels, i).value.path; first != [] && first[0] < end
    decreases end - i
  {
    if !IsIdentifierKind(nodes[i].kind) && FirstInOrder(Kids(nodes[i]), levels - 1, 0).None? {
      FirstStops(nodes, levels, i + 1, end);
    }
  }

  lemma DirectFirstIff(nodes: seq<Tree>, levels: nat)
    requires levels > 0 && DirectIndex(nodes, 0) < |nodes|
    ensures var d := DirectIndex(nodes, 0);
            && FirstInOrder(nodes, levels, 0).Some?
            && (FirstInOrder(nodes, levels, 0) == Some(Found([d], nodes[d])) <==> NoneBelow(nodes, levels - 1, 0, d))
  {
    var d := DirectIndex(nodes, 0);
    if NoneBelow(nodes, levels - 1, 0, d) {
      FirstSkips(nodes, levels, 0);
    } else {
      FirstStops(nodes, levels, 0, d);
    }
  }

  /**
   * The identifier picked is the first in document order within reach exactly when, at each
   * level entered, nothing before the direct identifier holds one.
   */
  lemma {:induction false} PickedFirstIff(node: Tree, levels: nat)
    ensures Picked(node, levels) == FirstInOrder(Kids(node), levels, 0) <==> InOrder(node, levels)
    ensures Picked(node, levels).Some? <==> FirstInOrder(Kids(node), levels, 0).Some?
    decreases levels, 0, 0
  {
    if levels > 0 {
      var kids := Kids(node);
      if DirectIndex(kids, 0) < |kids| {
        DirectFirstIff(kids, levels);
      } else {
        BelowFirstIff(kids, levels - 1, 0);
      }
    }
  }

  lemma {:induction false} BelowFirstIff(nodes: seq<Tree>, levels: nat, i: nat)
    requires i <= |nodes| && DirectIndex(nodes, i) == |nodes|
    ensures PickedBelow(nodes, levels, i) == FirstInOrder(nodes, levels + 1, i) <==> InOrderBelow(nodes, levels, i)
    ensures PickedBelow(nodes, levels, i).Some? <==> FirstInOrder(nodes, levels + 1, i).Some?
    decreases levels, 1, |nodes| - i
  {
    if i < |nodes| {
      PickedFirstIff(nodes[i], levels);
      BelowFirstIff(nodes, levels, i + 1);
      ThroughInjective(i, Picked(nodes[i], levels), FirstInOrder(Kids(nodes[i]), levels, 0));
    }
  }

  lemma ThroughInjective(i: nat, a: Option<Found>, b: Option<Found>)
    ensures Through(i, a) == Through(i, b) <==> a == b
  {
    if a.Some? && b.Some? && Through(i, a) == Through(i, b) {
      assert ([i] + a.value.path)[1..] == ([i] + b.value.path)[1..];
    }
  }

  /** A node with no children of its own. */
  function Leaf(kind: Kind, start: nat, end: nat): Tree {
    Tree(kind, true, OtherField(""), start, end, 0, 0, [])
  }

  /** `let` over a wrapped identifier at byte 0 and, after it, a bare one at byte 2. */
  function WrappedThenBare(): Tree {
    Tree(LetDeclaration, true, OtherField(""), 0, 3, 0, 0,
         [Tree(OtherKind("wrapper"), true, OtherField(""), 0, 1, 0, 0, [Leaf(Identifier, 0, 1)]), Leaf(Identifier, 2, 3)])
  }

  lemma OneNamed(a: Tree)
    requires a.named
    ensures NamedOf([a]) == [a]
  {
    assert NamedOf([a][1..]) == [];
  }

  lemma TwoNamed(a: Tree, b: Tree)
    requires a.named && b.named
    ensures NamedOf([a, b]) == [a, b]
  {
    assert [a, b][1..] == [b];
    OneNamed(b);
  }

  /** A binding named by its second identifier: the bare one, though the wrapped one comes first. */
  lemma BareNameWins()
    ensures Picked(WrappedThenBare(), 3) == Some(Found([1], Leaf(Identifier, 2, 3)))
    ensures FirstInOrder(Kids(WrappedThenBare()), 3, 0) == Some(Found([0, 0], Leaf(Identifier, 0, 1)))
    ensures !InOrder(WrappedThenBare(), 3)
  {
    var wrapper := Tree(OtherKind("wrapper"), true, OtherField(""), 0, 1, 0, 0, [Leaf(Identifier, 0, 1)]);
    var kids := [wrapper, Leaf(Identifier, 2, 3)];
    TwoNamed(wrapper, Leaf(Identifier, 2, 3));
    OneNamed(Leaf(Identifier, 0, 1));
    assert Kids(WrappedThenBare()) == kids && Kids(wrapper) == [Leaf(Identifier, 0, 1)];
    assert DirectIndex(kids, 0) == DirectIndex(kids, 1) == 1;
    assert FirstInOrder(Kids(wrapper), 2, 0) == Some(Found([0], Leaf(Identifier, 0, 1)));
    assert Through(0, FirstInOrder(Kids(wrapper), 2, 0)).value.path == [0, 0];
    PickedFirstIff(WrappedThenBare(), 3);
  }
}
