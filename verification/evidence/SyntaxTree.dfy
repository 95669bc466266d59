/** Parse trees and the order a recursive walk visits them in. */
module SyntaxTree {
  import opened Sequences

  /** How deep SlugAudit's own walkers descend before they cut. */
  const MAX_WALK_DEPTH: nat := 512

  /** A node kind: one the walkers know by name, or any other. */
  datatype Kind =
    | LetDeclaration | ConstDeclaration | VarDeclaration | ValDeclaration | BindingNode
    | Parameter | Assignment | FieldDeclaration | PropertyDeclaration | FieldDefinition
    | PublicFieldDefinition | PropertySignature | Identifier | FieldIdentifier | FieldName
    | ShorthandPropertyIdentifier | PropertyIdentifier | SimpleIdentifier | FunctionItem
    | FunctionSignatureItem | ClosureExpression | ImplItem | TraitItem | CallExpression
    | MacroInvocation | ScopedIdentifier | FieldExpression | GenericFunction | ImportStatement
    | ImportFromStatement | ImportDeclaration | ImportHeader | UsingDirective | UsingStatement
    | ImportDirective | ImportSpecification | LibraryImport | UseStatement
    | NamespaceUseDeclaration | PreprocInclude | OpenModule | PpIncludeLib | ImportNode | TokenTree | OtherKind(name: string)

  /** The field a node fills in its parent. */
  datatype Field = FunctionField | OtherField(name: string)

  /** One node of a parse tree. */
  datatype Tree = Tree(
    kind: Kind, named: bool, field: Field,
    start: nat, end: nat, startRow: nat, endRow: nat,
    children: seq<Tree>)

  /** The named nodes among `nodes`, in order. */
  function NamedOf(nodes: seq<Tree>): (r: seq<Tree>)
    ensures |r| <= |nodes|
    ensures forall k :: k in r ==> k in nodes && k.named
  {
    if nodes == [] then []
    else (if nodes[0].named then [nodes[0]] else []) + NamedOf(nodes[1..])
  }

  /** Which nodes these are, one by one and in order. */
  lemma {:induction false} NamedConcat(a: seq<Tree>, b: seq<Tree>)
    ensures NamedOf(a + b) == NamedOf(a) + NamedOf(b)
    ensures |a| == 1 ==> NamedOf(a) == if a[0].named then a else []
    decreases |a|
  {
    if a == [] {
      assert a + b == b;
    } else {
      NamedConcat(a[1..], b);
      assert (a + b)[1..] == a[1..] + b;
      ConcatAssociative(if a[0].named then [a[0]] else [], NamedOf(a[1..]), NamedOf(b));
    }
  }

  function Kids(node: Tree): seq<Tree> {
    NamedOf(node.children)
  }

  /** The first of `nodes` that fills the `function` field. */
  function FunctionPart(nodes: seq<Tree>): (r: Option<Tree>)
    ensures r.Some? ==> r.value in nodes
  {
    if nodes == [] then None
    else if nodes[0].field.FunctionField? then Some(nodes[0])
    else FunctionPart(nodes[1..])
  }

  /** A position below a node: the index of the named child taken at each level. */
  type Path = seq<nat>

  /** A node where a walk meets it: `above` lists its ancestors, the root first. */
  datatype Site = Site(node: Tree, above: seq<Tree>, path: Path)

  function Root(tree: Tree): Site {
    Site(tree, [], [])
  }

  function Child(s: Site, i: nat): Site
    requires i < |Kids(s.node)|
  {
    Site(Kids(s.node)[i], s.above + [s.node], s.path + [i])
  }

  /** What a recursive pre-order descent from `s` meets, cutting at `MAX_WALK_DEPTH`. */
  function PreOrder(s: Site): seq<Site>
    requires |s.above| <= MAX_WALK_DEPTH
    decreases MAX_WALK_DEPTH - |s.above|, 0
  {
    if |s.above| == MAX_WALK_DEPTH then [s] else [s] + Siblings(s, 0)
  }

  /** The descents from `s`'s named children `i` and later, one after the other. */
  function Siblings(s: Site, i: nat): seq<Site>
    requires |s.above| < MAX_WALK_DEPTH && i <= |Kids(s.node)|
    decreases MAX_WALK_DEPTH - |s.above| - 1, 1 + |Kids(s.node)| - i
  {
    if i == |Kids(s.node)| then []
    else PreOrder(Child(s, i)) + Siblings(s, i + 1)
  }

  /** A walker's stack holds sites no deeper than the cut. */
  predicate IsStack(stack: seq<Site>) {
    forall s :: s in stack ==> |s.above| <= MAX_WALK_DEPTH
  }

  /** What is left to visit when `stack` holds the pending descents, the next one last. */
  function Todo(stack: seq<Site>): seq<Site>
    requires IsStack(stack)
  {
    if stack == [] then []
    else PreOrder(stack[|stack| - 1]) + Todo(stack[..|stack| - 1])
  }

  lemma TodoPush(stack: seq<Site>, s: Site)
    requires IsStack(stack) && |s.above| <= MAX_WALK_DEPTH
    ensures IsStack(stack + [s])
    ensures Todo(stack + [s]) == PreOrder(s) + Todo(stack)
  {
    var all := stack + [s];
    assert all[..|all| - 1] == stack;
  }

  /** The children of `s` from `i` on, the last one first. */
  function Pushed(s: Site, i: nat): (r: seq<Site>)
    requires i <= |Kids(s.node)|
    ensures |r| == |Kids(s.node)| - i
    ensures forall k :: 0 <= k < |r| ==> r[k] == Child(s, |Kids(s.node)| - 1 - k)
    decreases |Kids(s.node)| - i
  {
    if i == |Kids(s.node)| then [] else Pushed(s, i + 1) + [Child(s, i)]
  }

  lemma PushedIsStack(stack: seq<Site>, s: Site, i: nat)
    requires IsStack(stack) && |s.above| < MAX_WALK_DEPTH && i <= |Kids(s.node)|
    ensures IsStack(stack + Pushed(s, i))
  {
    forall t | t in Pushed(s, i) ensures |t.above| <= MAX_WALK_DEPTH {
      var k :| 0 <= k < |Pushed(s, i)| && Pushed(s, i)[k] == t;
    }
  }

  /** Pushing a node's children in reverse leaves exactly the rest of its descent to do. */
  lemma {:induction false} PushedChildrenKeepOrder(stack: seq<Site>, s: Site, i: nat)
    requires IsStack(stack)
    requires |s.above| < MAX_WALK_DEPTH && i <= |Kids(s.node)|
    ensures IsStack(stack + Pushed(s, i))
    ensures Todo(stack + Pushed(s, i)) == Siblings(s, i) + Todo(stack)
    decreases |Kids(s.node)| - i
  {
    PushedIsStack(stack, s, i);
    if i == |Kids(s.node)| {
      assert stack + Pushed(s, i) == stack;
    } else {
      PushedChildrenKeepOrder(stack, s, i + 1);
      PushOneMore(stack, Pushed(s, i + 1), Child(s, i), Siblings(s, i + 1));
    }
  }

  lemma PushOneMore(stack: seq<Site>, pushed: seq<Site>, s: Site, later: seq<Site>)
    requires IsStack(stack) && IsStack(stack + pushed) && |s.above| <= MAX_WALK_DEPTH
    requires Todo(stack + pushed) == later + Todo(stack)
    ensures IsStack(stack + (pushed + [s]))
    ensures Todo(stack + (pushed + [s])) == (PreOrder(s) + later) + Todo(stack)
  {
    TodoPush(stack + pushed, s);
    ConcatAssociative(stack, pushed, [s]);
    ConcatAssociative(PreOrder(s), later, Todo(stack));
  }

  /** Whether `steps` leads somewhere from `s`. */
  predicate Reaches(s: Site, steps: Path)
    decreases |steps|
  {
    steps == [] || (steps[0] < |Kids(s.node)| && Reaches(Child(s, steps[0]), steps[1..]))
  }

  /** Where `steps` leads from `s`. */
  function Follow(s: Site, steps: Path): (t: Site)
    requires Reaches(s, steps)
    ensures t.path == s.path + steps
    ensures |t.above| == |s.above| + |steps|
    decreases |steps|
  {
    if steps == [] then s else Follow(Child(s, steps[0]), steps[1..])
  }

  /** Document order: an ancestor before its descendants, an earlier sibling before a later one. */
  predicate Before(a: Path, b: Path)
  {
    b != [] && (a == [] || a[0] < b[0] || (a[0] == b[0] && Before(a[1..], b[1..])))
  }

  lemma {:induction false} BeforeExtends(p: Path, a: Path, b: Path)
    ensures Before(p + a, p + b) <==> Before(a, b)
  {
    if p == [] {
      assert p + a == a && p + b == b;
    } else {
      BeforeExtends(p[1..], a, b);
      assert (p + a)[1..] == p[1..] + a && (p + b)[1..] == p[1..] + b;
    }
  }

  /** Every site a descent meets is reached by following some steps. */
  lemma {:induction false} PreOrderSound(s: Site, k: nat) returns (steps: Path)
    requires |s.above| <= MAX_WALK_DEPTH && k < |PreOrder(s)|
    ensures Reaches(s, steps) && |s.above| + |steps| <= MAX_WALK_DEPTH
    ensures PreOrder(s)[k] == Follow(s, steps)
    decreases MAX_WALK_DEPTH - |s.above|, 0
  {
    if k == 0 {
      steps := [];
    } else {
      var i;
      i, steps := SiblingsSound(s, 0, k - 1);
      steps := [i] + steps;
    }
  }

  lemma {:induction false} SiblingsSound(s: Site, i: nat, k: nat) returns (j: nat, steps: Path)
    requires |s.above| < MAX_WALK_DEPTH && i <= |Kids(s.node)| && k < |Siblings(s, i)|
    ensures i <= j < |Kids(s.node)|
    ensures Reaches(Child(s, j), steps) && |s.above| + 1 + |steps| <= MAX_WALK_DEPTH
    ensures Siblings(s, i)[k] == Follow(Child(s, j), steps)
    decreases MAX_WALK_DEPTH - |s.above| - 1, 1 + |Kids(s.node)| - i
  {
    var first := PreOrder(Child(s, i));
    if k < |first| {
      j := i;
      steps := PreOrderSound(Child(s, i), k);
    } else {
      j, steps := SiblingsSound(s, i + 1, k - |first|);
    }
  }

  /** Every site within the cut is met. */
  lemma {:induction false} PreOrderComplete(s: Site, steps: Path)
    requires |s.above| + |steps| <= MAX_WALK_DEPTH && Reaches(s, steps)
    ensures Follow(s, steps) in PreOrder(s)
    decreases |steps|
  {
    if steps == [] {
      assert PreOrder(s)[0] == s;
    } else {
      PreOrderComplete(Child(s, steps[0]), steps[1..]);
      SiblingsContain(s, 0, steps[0], Follow(s, steps));
    }
  }

  lemma {:induction false} SiblingsContain(s: Site, i: nat, j: nat, t: Site)
    requires |s.above| < MAX_WALK_DEPTH && i <= j < |Kids(s.node)|
    requires t in PreOrder(Child(s, j))
    ensures t in Siblings(s, i)
    decreases j - i
  {
    if i < j {
      SiblingsContain(s, i + 1, j, t);
    }
  }

  /** A descent never goes back: its sites are in strict document order. */
  lemma {:induction false} PreOrderSorted(s: Site, a: nat, b: nat)
    requires |s.above| <= MAX_WALK_DEPTH && a < b < |PreOrder(s)|
    ensures Before(PreOrder(s)[a].path, PreOrder(s)[b].path)
    decreases MAX_WALK_DEPTH - |s.above|, 0
  {
    if a == 0 {
      var j, steps := SiblingsSound(s, 0, b - 1);
      DescendantLater(s.path, [j] + steps);
      assert s.path + [j] + steps == s.path + ([j] + steps);
    } else {
      SiblingsSorted(s, 0, a - 1, b - 1);
    }
  }

  lemma DescendantLater(p: Path, steps: Path)
    requires steps != []
    ensures Before(p, p + steps)
  {
    BeforeExtends(p, [], steps);
    assert p + [] == p;
  }

  lemma {:induction false} SiblingsSorted(s: Site, i: nat, a: nat, b: nat)
    requires |s.above| < MAX_WALK_DEPTH && i <= |Kids(s.node)|
    requires a < b < |Siblings(s, i)|
    ensures Before(Siblings(s, i)[a].path, Siblings(s, i)[b].path)
    decreases MAX_WALK_DEPTH - |s.above| - 1, 1 + |Kids(s.node)| - i
  {
    var first := PreOrder(Child(s, i));
    if b < |first| {
      PreOrderSorted(Child(s, i), a, b);
    } else if a < |first| {
      var x := PreOrderSound(Child(s, i), a);
      var j, y := SiblingsSound(s, i + 1, b - |first|);
      EarlierSiblingFirst(s.path, i, x, j, y);
    } else {
      SiblingsSorted(s, i + 1, a - |first|, b - |first|);
    }
  }

  lemma EarlierSiblingFirst(p: Path, i: nat, x: Path, j: nat, y: Path)
    requires i < j
    ensures Before(p + [i] + x, p + [j] + y)
  {
    BeforeExtends(p, [i] + x, [j] + y);
    assert p + ([i] + x) == p + [i] + x && p + ([j] + y) == p + [j] + y;
  }

  /**
   * The walk order, said without the walk: exactly the nodes reached through named
   * nodes down to the cut, each once, in document order.
   */
  lemma WalkOrder(tree: Tree)
    ensures var sites := PreOrder(Root(tree));
            && (forall p: Path :: Reaches(Root(tree), p) && |p| <= 512 ==> Follow(Root(tree), p) in sites)
            && (forall t :: t in sites ==>
                  |t.path| <= 512 && Reaches(Root(tree), t.path) && t == Follow(Root(tree), t.path))
            && (forall a, b :: 0 <= a < b < |sites| ==> Before(sites[a].path, sites[b].path))
  {
    var root := Root(tree);
    var sites := PreOrder(root);
    forall a, b | 0 <= a < b < |sites| ensures Before(sites[a].path, sites[b].path) {
      PreOrderSorted(root, a, b);
    }
    forall p: Path | Reaches(root, p) && |p| <= MAX_WALK_DEPTH ensures Follow(root, p) in sites {
      PreOrderComplete(root, p);
    }
    forall t | t in sites
      ensures |t.path| <= MAX_WALK_DEPTH && Reaches(root, t.path) && t == Follow(root, t.path)
    {
      var k :| 0 <= k < |sites| && sites[k] == t;
      var steps := PreOrderSound(root, k);
      assert root.path + steps == steps;
    }
  }

  /** The ancestors a site carries are the nodes on the way to it. */
  lemma {:induction false} AboveIsTheWay(s: Site, steps: Path, k: nat)
    requires Reaches(s, steps) && k < |steps|
    ensures Reaches(s, steps[..k])
    ensures Follow(s, steps).above[|s.above| + k] == Follow(s, steps[..k]).node
    decreases |steps|
  {
    AboveKept(Child(s, steps[0]), steps[1..]);
    if k > 0 {
      AboveIsTheWay(Child(s, steps[0]), steps[1..], k - 1);
      assert steps[..k][1..] == steps[1..][..k - 1];
    }
  }

  lemma {:induction false} AboveKept(s: Site, steps: Path)
    requires Reaches(s, steps)
    ensures s.above <= Follow(s, steps).above
    decreases |steps|
  {
    if steps != [] {
      AboveKept(Child(s, steps[0]), steps[1..]);
    }
  }
}
