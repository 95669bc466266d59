/** What a call's row says of its callee, told from the tree's children and the source's bytes. */
module CalleeNames {
  import opened Sequences
  import opened SyntaxTree
  import opened Evidence
  import opened Calls

  // ----- the first and the last child of a kind

  function Any(): Tree -> bool {
    (c: Tree) => true
  }

  function OfKinds(kinds: set<Kind>): Tree -> bool {
    (c: Tree) => c.kind in kinds
  }

  function Named(wanted: Tree -> bool): Tree -> bool {
    (c: Tree) => c.named && wanted(c)
  }

  function InFunctionField(): Tree -> bool {
    (c: Tree) => c.field == FunctionField
  }

  /** `nodes[i]` is the first of `nodes` that is wanted. */
  predicate FirstAt(nodes: seq<Tree>, wanted: Tree -> bool, i: int) {
    0 <= i < |nodes| && wanted(nodes[i]) && forall j :: 0 <= j < i ==> !wanted(nodes[j])
  }

  /** The first node that is wanted, or none when none is. */
  ghost predicate IsFirst(nodes: seq<Tree>, wanted: Tree -> bool, found: Option<Tree>) {
    match found
    case None => forall j :: 0 <= j < |nodes| ==> !wanted(nodes[j])
    case Some(node) => exists i :: FirstAt(nodes, wanted, i) && nodes[i] == node
  }

  lemma FirstIsLater(nodes: seq<Tree>, wanted: Tree -> bool, found: Option<Tree>)
    requires nodes != [] && !wanted(nodes[0]) && IsFirst(nodes[1..], wanted, found)
    ensures IsFirst(nodes, wanted, found)
  {
    assert forall j :: 0 < j < |nodes| ==> nodes[j] == nodes[1..][j - 1];
    if found.Some? {
      var i :| FirstAt(nodes[1..], wanted, i) && nodes[1..][i] == found.value;
      assert FirstAt(nodes, wanted, i + 1);
    }
  }

  lemma FirstIsHere(nodes: seq<Tree>, wanted: Tree -> bool)
    requires nodes != [] && wanted(nodes[0])
    ensures IsFirst(nodes, wanted, Some(nodes[0]))
  {
    assert FirstAt(nodes, wanted, 0);
  }

  lemma OnlyOneIsFirst(nodes: seq<Tree>, wanted: Tree -> bool, a: Option<Tree>, b: Option<Tree>)
    requires IsFirst(nodes, wanted, a) && IsFirst(nodes, wanted, b)
    ensures a == b
  {
  }

  lemma FirstAfterHead(nodes: seq<Tree>, wanted: Tree -> bool, found: Option<Tree>)
    requires nodes != [] && !wanted(nodes[0]) && IsFirst(nodes, wanted, found)
    ensures IsFirst(nodes[1..], wanted, found)
  {
    assert forall j :: 0 < j < |nodes| ==> nodes[j] == nodes[1..][j - 1];
    if found.Some? {
      var i :| FirstAt(nodes, wanted, i) && nodes[i] == found.value;
      assert FirstAt(nodes[1..], wanted, i - 1);
    }
  }

  /** The first of the named children is the first child that is named. */
  lemma {:induction false} FirstOfNamed(nodes: seq<Tree>, wanted: Tree -> bool, found: Option<Tree>)
    requires IsFirst(NamedOf(nodes), wanted, found)
    ensures IsFirst(nodes, Named(wanted), found)
    decreases |nodes|
  {
    if nodes != [] {
      if !nodes[0].named {
        assert NamedOf(nodes) == NamedOf(nodes[1..]);
        FirstOfNamed(nodes[1..], wanted, found);
        FirstIsLater(nodes, Named(wanted), found);
      } else if wanted(nodes[0]) {
        FirstIsHere(NamedOf(nodes), wanted);
        OnlyOneIsFirst(NamedOf(nodes), wanted, found, Some(nodes[0]));
        FirstIsHere(nodes, Named(wanted));
      } else {
        assert NamedOf(nodes)[1..] == NamedOf(nodes[1..]);
        FirstAfterHead(NamedOf(nodes), wanted, found);
        FirstOfNamed(nodes[1..], wanted, found);
        FirstIsLater(nodes, Named(wanted), found);
      }
    }
  }

  /** `node` is named, and no node after it is. */
  predicate IsLastNamed(nodes: seq<Tree>, node: Tree) {
    exists i :: 0 <= i < |nodes| && nodes[i] == node && node.named && forall j :: i < j < |nodes| ==> !nodes[j].named
  }

  predicate NoneNamed(nodes: seq<Tree>) {
    forall j :: 0 <= j < |nodes| ==> !nodes[j].named
  }

  lemma LastNamedIsLater(nodes: seq<Tree>, last: Tree)
    requires nodes != [] && IsLastNamed(nodes[1..], last)
    ensures IsLastNamed(nodes, last)
  {
    var rest := nodes[1..];
    var i :| 0 <= i < |rest| && rest[i] == last && last.named && forall j :: i < j < |rest| ==> !rest[j].named;
    assert nodes[i + 1] == last && forall j :: i + 1 < j < |nodes| ==> nodes[j] == rest[j - 1];
  }

  lemma {:induction false} LastNamed(nodes: seq<Tree>)
    ensures NamedOf(nodes) == [] ==> NoneNamed(nodes)
    ensures NamedOf(nodes) != [] ==> IsLastNamed(nodes, NamedOf(nodes)[|NamedOf(nodes)| - 1])
    decreases |nodes|
  {
    if nodes != [] {
      var rest := nodes[1..];
      LastNamed(rest);
      if NamedOf(rest) == [] {
        assert forall j :: 0 < j < |nodes| ==> nodes[j] == rest[j - 1];
        assert nodes[0].named ==> NamedOf(nodes) == [nodes[0]];
      } else {
        LastNamedIsLater(nodes, NamedOf(rest)[|NamedOf(rest)| - 1]);
      }
    }
  }

  // ----- the pieces of a call

  /** The child a call calls: for a macro the first named one, else the first named one that can be called. */
  ghost predicate IsCallee(node: Tree, macroCall: bool, callee: Option<Tree>) {
    IsFirst(node.children,
            Named(if macroCall then Any() else OfKinds({Identifier, ScopedIdentifier, FieldExpression, GenericFunction})),
            callee)
  }

  lemma {:induction false} FirstCalleeIs(nodes: seq<Tree>)
    ensures IsFirst(nodes, OfKinds({Identifier, ScopedIdentifier, FieldExpression, GenericFunction}), FirstCallee(nodes))
    decreases |nodes|
  {
    var wanted := OfKinds({Identifier, ScopedIdentifier, FieldExpression, GenericFunction});
    if nodes != [] {
      if wanted(nodes[0]) {
        FirstIsHere(nodes, wanted);
      } else {
        FirstCalleeIs(nodes[1..]);
        FirstIsLater(nodes, wanted, FirstCallee(nodes[1..]));
      }
    }
  }

  lemma CalleeIs(node: Tree, macroCall: bool)
    ensures IsCallee(node, macroCall, CalleeNode(node, macroCall))
  {
    var wanted := if macroCall then Any() else OfKinds({Identifier, ScopedIdentifier, FieldExpression, GenericFunction});
    if macroCall && Kids(node) != [] {
      FirstIsHere(Kids(node), wanted);
    } else if !macroCall {
      FirstCalleeIs(Kids(node));
    }
    FirstOfNamed(node.children, wanted, CalleeNode(node, macroCall));
  }

  /** The first child in the `function` field of a call with type arguments. */
  ghost predicate IsGenericPart(node: Tree, part: Option<Tree>) {
    if node.kind == GenericFunction then IsFirst(node.children, InFunctionField(), part) else part == None
  }

  lemma {:induction false} FunctionPartIs(nodes: seq<Tree>)
    ensures IsFirst(nodes, InFunctionField(), FunctionPart(nodes))
    decreases |nodes|
  {
    if nodes != [] {
      if nodes[0].field == FunctionField {
        FirstIsHere(nodes, InFunctionField());
      } else {
        FunctionPartIs(nodes[1..]);
        FirstIsLater(nodes, InFunctionField(), FunctionPart(nodes[1..]));
      }
    }
  }

  lemma GenericPartIs(node: Tree, part: Option<Tree>)
    ensures IsGenericPart(node, part) <==> part == GenericInner(node)
  {
    FunctionPartIs(node.children);
    if node.kind == GenericFunction && IsGenericPart(node, part) {
      OnlyOneIsFirst(node.children, InFunctionField(), part, GenericInner(node));
    }
  }

  /** `text` is what the source holds at the node, which lies in it between code points. */
  predicate Slices(node: Tree, source: Text, text: Text) {
    && node.start <= node.end <= |source| && IsBoundary(source, node.start) && IsBoundary(source, node.end)
    && text == source[node.start..node.end]
  }

  lemma TextIs(node: Tree, source: Text, text: Text)
    ensures TextOf(node, source) == Ok(text) <==> Slices(node, source, text)
  {
  }

  // ----- the simple name

  predicate IsNameNode(node: Tree) {
    node.kind == Identifier || node.kind == FieldIdentifier
  }

  /** Where the descent goes from a node that is no name: into what is called, or the last named child. */
  ghost predicate IsNext(node: Tree, next: Tree) {
    IsGenericPart(node, Some(next)) || (IsGenericPart(node, None) && IsLastNamed(node.children, next))
  }

  /** A descent from its first node on, each step leaving a node that is no name. */
  ghost predicate IsDescent(chain: seq<Tree>)
    decreases |chain|
  {
    chain != [] && (|chain| > 1 ==> !IsNameNode(chain[0]) && IsNext(chain[0], chain[1]) && IsDescent(chain[1..]))
  }

  /** It ends at a name, or at a node with nothing further in it. */
  ghost predicate IsEnd(node: Tree) {
    IsNameNode(node) || (IsGenericPart(node, None) && NoneNamed(node.children))
  }

  /** What a descent reads where it ends. */
  predicate Reads(end: Tree, source: Text, name: Option<Text>) {
    if IsNameNode(end) then name.Some? && Slices(end, source, name.value) else name.None?
  }

  /** The name a whole descent from `node` reads. */
  ghost predicate IsNamed(node: Tree, source: Text, name: Option<Text>) {
    exists chain :: IsDescent(chain) && chain[0] == node && IsEnd(chain[|chain| - 1]) && Reads(chain[|chain| - 1], source, name)
  }

  lemma OnlyLastNamed(nodes: seq<Tree>, node: Tree)
    requires IsLastNamed(nodes, node)
    ensures NamedOf(nodes) != [] && node == NamedOf(nodes)[|NamedOf(nodes)| - 1]
  {
    LastNamed(nodes);
  }

  lemma NextIs(node: Tree, next: Tree)
    requires IsNext(node, next)
    ensures GenericInner(node) == Some(next)
            || (GenericInner(node) == None && Kids(node) != [] && next == Kids(node)[|Kids(node)| - 1])
  {
    GenericPartIs(node, Some(next));
    GenericPartIs(node, None);
    if GenericInner(node).None? {
      OnlyLastNamed(node.children, next);
    }
  }

  /** The name at an end. */
  function NameAt(end: Tree, source: Text): Result<Option<Text>, TextRangeError> {
    if !IsNameNode(end) then Ok(None)
    else match TextOf(end, source) case Ok(text) => Ok(Some(text)) case Err(error) => Err(error)
  }

  lemma EndIsNamed(node: Tree, source: Text)
    requires IsEnd(node)
    ensures SimpleName(node, source) == NameAt(node, source)
  {
    GenericPartIs(node, None);
    LastNamed(node.children);
  }

  lemma NextIsNamed(node: Tree, next: Tree, source: Text)
    requires !IsNameNode(node) && IsNext(node, next)
    ensures SimpleName(node, source) == SimpleName(next, source)
  {
    NextIs(node, next);
  }

  /** Any whole descent reads the simple name. */
  lemma {:induction false} DescentReads(chain: seq<Tree>, source: Text)
    requires IsDescent(chain) && IsEnd(chain[|chain| - 1])
    ensures SimpleName(chain[0], source) == NameAt(chain[|chain| - 1], source)
    decreases |chain|
  {
    if |chain| == 1 {
      EndIsNamed(chain[0], source);
    } else {
      NextIsNamed(chain[0], chain[1], source);
      DescentReads(chain[1..], source);
    }
  }

  lemma GenericLeadsOn(node: Tree)
    requires GenericInner(node).Some?
    ensures IsNext(node, GenericInner(node).value) && GenericInner(node).value in node.children
  {
    GenericPartIs(node, GenericInner(node));
  }

  lemma LastLeadsOn(node: Tree)
    requires GenericInner(node).None? && Kids(node) != []
    ensures IsNext(node, Kids(node)[|Kids(node)| - 1]) && Kids(node)[|Kids(node)| - 1] in node.children
  {
    GenericPartIs(node, None);
    LastNamed(node.children);
  }

  lemma NothingLeadsOn(node: Tree)
    requires GenericInner(node).None? && Kids(node) == []
    ensures IsEnd(node)
  {
    GenericPartIs(node, None);
    LastNamed(node.children);
  }

  /** A node is an end, or leads on to one of its children. */
  lemma EndOrNext(node: Tree) returns (next: Option<Tree>)
    ensures next.None? ==> IsEnd(node)
    ensures next.Some? ==> !IsNameNode(node) && IsNext(node, next.value) && next.value in node.children
  {
    if IsNameNode(node) {
      next := None;
    } else if GenericInner(node).Some? {
      GenericLeadsOn(node);
      next := GenericInner(node);
    } else if Kids(node) == [] {
      NothingLeadsOn(node);
      next := None;
    } else {
      LastLeadsOn(node);
      next := Some(Kids(node)[|Kids(node)| - 1]);
    }
  }

  /** There is a whole descent from every node. */
  lemma {:induction false} DescentFrom(node: Tree) returns (chain: seq<Tree>)
    ensures IsDescent(chain) && chain[0] == node && IsEnd(chain[|chain| - 1])
    decreases node
  {
    var next := EndOrNext(node);
    if next.None? {
      chain := [node];
    } else {
      var rest := DescentFrom(next.value);
      chain := [node] + rest;
      assert chain[1..] == rest;
    }
  }

  /** The simple name is the text at the end of the descent, and none where that has nothing further in it. */
  lemma SimpleNameIs(node: Tree, source: Text, name: Option<Text>)
    ensures SimpleName(node, source) == Ok(name) <==> IsNamed(node, source, name)
  {
    var chain := DescentFrom(node);
    DescentReads(chain, source);
    if IsNamed(node, source, name) {
      var other :| IsDescent(other) && other[0] == node && IsEnd(other[|other| - 1]) && Reads(other[|other| - 1], source, name);
      DescentReads(other, source);
    }
    if SimpleName(node, source) == Ok(name) {
      assert Reads(chain[|chain| - 1], source, name);
    }
  }

  // ----- the row

  /** `name` is `text` without the exclamation marks at its end. */
  predicate IsWithoutBangs(text: Text, name: Text) {
    && name <= text && (forall i :: |name| <= i < |text| ==> text[i] == 33)
    && (name != [] ==> name[|name| - 1] != 33)
  }

  lemma {:induction false} BangsTrimmed(text: Text)
    ensures IsWithoutBangs(text, TrimEndBangs(text))
    decreases |text|
  {
    if text != [] && text[|text| - 1] == 33 {
      BangsTrimmed(text[..|text| - 1]);
    }
  }

  lemma {:induction false} BangsTrimmedIs(text: Text, name: Text)
    ensures TrimEndBangs(text) == name <==> IsWithoutBangs(text, name)
    decreases |text|
  {
    BangsTrimmed(text);
    if IsWithoutBangs(text, name) {
      if text != [] && text[|text| - 1] == 33 {
        BangsTrimmedIs(text[..|text| - 1], name);
      } else {
        assert |name| == |text|;
      }
    }
  }

  /** Two colons in a row. */
  predicate HasSeparator(text: Text) {
    exists i :: 0 <= i && i + 1 < |text| && text[i] == 58 && text[i + 1] == 58
  }

  /** Whether what is called, its type arguments aside, is a `::` path. */
  ghost predicate IsPath(callee: Tree, source: Text, qualified: bool) {
    exists path, text ::
      && (IsGenericPart(callee, Some(path)) || (IsGenericPart(callee, None) && path == callee))
      && Slices(path, source, text) && qualified == HasSeparator(text)
  }

  lemma QualifiedIs(callee: Tree, source: Text, qualified: bool)
    ensures QualifiedCallee(callee, source) == Ok(qualified) <==> IsPath(callee, source, qualified)
  {
    var path := match GenericInner(callee) case Some(inner) => inner case None => callee;
    GenericPartIs(callee, Some(path));
    GenericPartIs(callee, None);
    if IsPath(callee, source, qualified) {
      var other, text :| (IsGenericPart(callee, Some(other)) || (IsGenericPart(callee, None) && other == callee))
                         && Slices(other, source, text) && qualified == HasSeparator(text);
      GenericPartIs(callee, Some(other));
      TextIs(path, source, text);
    }
    if QualifiedCallee(callee, source) == Ok(qualified) {
      TextIs(path, source, TextOf(path, source).value);
    }
  }

  /** What the row of a call says when it has a callee: its text, its simple name or else its text, and whether it is a path. */
  ghost predicate SaysCallee(callee: Tree, source: Text, site: CallSite) {
    && Slices(callee, source, site.calleeText) && IsPath(callee, source, site.qualified)
    && (IsNamed(callee, source, Some(site.calleeName))
        || (IsNamed(callee, source, None) && IsWithoutBangs(site.calleeText, site.calleeName)))
  }

  /** And when it has none: the whole call takes the callee's place. */
  predicate SaysWhole(node: Tree, source: Text, site: CallSite) {
    && Slices(node, source, site.calleeText) && site.qualified == HasSeparator(site.calleeText)
    && IsWithoutBangs(site.calleeText, site.calleeName)
  }

  lemma CalleeParts(node: Tree, callee: Tree, source: Text, macroCall: bool, enclosing: Caller, site: CallSite)
    requires CalleeNode(node, macroCall) == Some(callee)
    ensures CallParts(node, source, macroCall, enclosing) == Ok(site) <==>
            enclosing == Ok(site.caller) && site.macroCall == macroCall && SaysCallee(callee, source, site)
  {
    TextIs(callee, source, site.calleeText);
    QualifiedIs(callee, source, site.qualified);
    SimpleNameIs(callee, source, Some(site.calleeName));
    SimpleNameIs(callee, source, None);
    BangsTrimmedIs(site.calleeText, site.calleeName);
  }

  /** A call gives exactly the row its tree and source say, and none where a text it needs does not slice. */
  lemma CallPartsIs(node: Tree, source: Text, macroCall: bool, enclosing: Caller, site: CallSite)
    ensures CallParts(node, source, macroCall, enclosing) == Ok(site) <==>
            && enclosing == Ok(site.caller) && site.macroCall == macroCall
            && ((IsCallee(node, macroCall, None) && SaysWhole(node, source, site))
                || exists callee :: IsCallee(node, macroCall, Some(callee)) && SaysCallee(callee, source, site))
  {
    var found := CalleeNode(node, macroCall);
    var wanted := Named(if macroCall then Any() else OfKinds({Identifier, ScopedIdentifier, FieldExpression, GenericFunction}));
    CalleeIs(node, macroCall);
    forall other | IsCallee(node, macroCall, other) ensures other == found {
      OnlyOneIsFirst(node.children, wanted, other, found);
    }
    if found.Some? {
      CalleeParts(node, found.value, source, macroCall, enclosing, site);
    } else {
      TextIs(node, source, site.calleeText);
      BangsTrimmedIs(site.calleeText, site.calleeName);
    }
  }

  // ----- the caller

  lemma {:induction false} FirstIdentifierIs(nodes: seq<Tree>)
    ensures IsFirst(nodes, OfKinds({Identifier}), FirstIdentifierChild(nodes))
    decreases |nodes|
  {
    if nodes != [] {
      if nodes[0].kind == Identifier {
        FirstIsHere(nodes, OfKinds({Identifier}));
      } else {
        FirstIdentifierIs(nodes[1..]);
        FirstIsLater(nodes, OfKinds({Identifier}), FirstIdentifierChild(nodes[1..]));
      }
    }
  }

  /** A function is called what its first identifier child holds; with no such child it has no name. */
  lemma FunctionNameIs(node: Tree, source: Text, child: Option<Tree>, name: Text)
    requires IsFirst(node.children, Named(OfKinds({Identifier})), child)
    ensures child.None? ==> FunctionName(node, source) == Ok(None)
    ensures child.Some? ==> FunctionName(node, source) != Ok(None)
    ensures child.Some? ==> (FunctionName(node, source) == Ok(Some(name)) <==> Slices(child.value, source, name))
  {
    FirstIdentifierIs(Kids(node));
    FirstOfNamed(node.children, OfKinds({Identifier}), FirstIdentifierChild(Kids(node)));
    OnlyOneIsFirst(node.children, Named(OfKinds({Identifier})), child, FirstIdentifierChild(Kids(node)));
    if child.Some? {
      TextIs(child.value, source, name);
    }
  }
}
