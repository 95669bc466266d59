/** Naming a Rust call: its callee, its simple name, and the function it sits in. */
module Calls {
  import opened Sequences
  import opened SyntaxTree
  import opened Evidence

  /** A call, or a macro invocation. */
  predicate IsCallKind(kind: Kind) {
    kind.CallExpression? || kind.MacroInvocation?
  }

  /** A node whose subtree reports it as caller. */
  predicate IsFunctionKind(kind: Kind) {
    kind.FunctionItem? || kind.FunctionSignatureItem? || kind.ClosureExpression? ||
    kind.ImplItem? || kind.TraitItem?
  }

  /** A node that can be called. */
  predicate IsCalleeKind(kind: Kind) {
    kind.Identifier? || kind.ScopedIdentifier? || kind.FieldExpression? || kind.GenericFunction?
  }

  /** The caller a subtree reports: a name, none, or the error of slicing the name. */
  type Caller = Result<Option<Text>, TextRangeError>

  function FirstIdentifierChild(nodes: seq<Tree>): Option<Tree> {
    if nodes == [] then None
    else if nodes[0].kind.Identifier? then Some(nodes[0])
    else FirstIdentifierChild(nodes[1..])
  }

  function FirstCallee(nodes: seq<Tree>): Option<Tree> {
    if nodes == [] then None
    else if IsCalleeKind(nodes[0].kind) then Some(nodes[0])
    else FirstCallee(nodes[1..])
  }

  /** What a function is called, if one of its named children is an identifier. */
  function FunctionName(node: Tree, source: Text): Caller {
    match FirstIdentifierChild(Kids(node))
    case None => Ok(None)
    case Some(child) =>
      match TextOf(child, source)
      case Ok(text) => Ok(Some(text))
      case Err(error) => Err(error)
  }

  function CallerBelow(node: Tree, source: Text, inherited: Caller): Caller {
    if IsFunctionKind(node.kind) then FunctionName(node, source) else inherited
  }

  /** The caller of a node whose ancestors are `above`, the root first. */
  function EnclosingCaller(above: seq<Tree>, source: Text): Caller {
    if above == [] then Ok(None)
    else
      var nearest := above[|above| - 1];
      if IsFunctionKind(nearest.kind) then FunctionName(nearest, source)
      else EnclosingCaller(above[..|above| - 1], source)
  }

  /** The innermost function above decides, however far up it is. */
  lemma {:induction false} EnclosingCallerIsNearest(above: seq<Tree>, source: Text, k: nat)
    requires k < |above| && IsFunctionKind(above[k].kind)
    requires forall j :: k < j < |above| ==> !IsFunctionKind(above[j].kind)
    ensures EnclosingCaller(above, source) == FunctionName(above[k], source)
  {
    if k < |above| - 1 {
      EnclosingCallerIsNearest(above[..|above| - 1], source, k);
    }
  }

  lemma {:induction false} NoEnclosingFunction(above: seq<Tree>, source: Text)
    requires forall j :: 0 <= j < |above| ==> !IsFunctionKind(above[j].kind)
    ensures EnclosingCaller(above, source) == Ok(None)
  {
    if above != [] {
      NoEnclosingFunction(above[..|above| - 1], source);
    }
  }

  function CalleeNode(node: Tree, macroCall: bool): Option<Tree> {
    if macroCall then
      if Kids(node) == [] then None else Some(Kids(node)[0])
    else FirstCallee(Kids(node))
  }

  /** What is called under explicit type arguments: the callee without them. */
  function GenericInner(node: Tree): (r: Option<Tree>)
    ensures r.Some? ==> r.value in node.children
  {
    if node.kind.GenericFunction? then FunctionPart(node.children) else None
  }

  function SimpleName(node: Tree, source: Text): Result<Option<Text>, TextRangeError>
    decreases node
  {
    if node.kind.Identifier? || node.kind.FieldIdentifier? then
      match TextOf(node, source)
      case Ok(text) => Ok(Some(text))
      case Err(error) => Err(error)
    else
      match GenericInner(node)
      case Some(inner) => SimpleName(inner, source)
      case None =>
        if Kids(node) == [] then Ok(None)
        else
          assert Kids(node)[|Kids(node)| - 1] in node.children;
          SimpleName(Kids(node)[|Kids(node)| - 1], source)
  }

  /** The descent as the source runs it: a loop, since its length follows file content. */
  method FindSimpleName(node: Tree, source: Text) returns (name: Result<Option<Text>, TextRangeError>)
    ensures name == SimpleName(node, source)
  {
    var current := node;
    while true
      invariant SimpleName(current, source) == SimpleName(node, source)
      decreases current
    {
      if current.kind.Identifier? || current.kind.FieldIdentifier? {
        match TextOf(current, source)
        case Ok(text) => return Ok(Some(text));
        case Err(error) => return Err(error);
      }
      match GenericInner(current) {
        case Some(inner) =>
          current := inner;
        case None =>
          var kids := Kids(current);
          if kids == [] {
            return Ok(None);
          }
          assert kids[|kids| - 1] in current.children;
          current := kids[|kids| - 1];
      }
    }
  }

  const COLON: byte := 58
  const BANG: byte := 33

  /** Whether the text holds `::`. */
  predicate IsQualified(text: Text) {
    exists i :: 0 <= i < |text| - 1 && text[i] == COLON && text[i + 1] == COLON
  }

  function TrimEndBangs(text: Text): Text {
    if text != [] && text[|text| - 1] == BANG then TrimEndBangs(text[..|text| - 1]) else text
  }

  function QualifiedCallee(callee: Tree, source: Text): Result<bool, TextRangeError> {
    var path := match GenericInner(callee) case Some(inner) => inner case None => callee;
    match TextOf(path, source)
    case Ok(text) => Ok(IsQualified(text))
    case Err(error) => Err(error)
  }

  /** Everything a call's row reads from the source; any slice that fails fails the call. */
  function CallParts(node: Tree, source: Text, macroCall: bool, enclosing: Caller): Result<CallSite, TextRangeError> {
    match CalleeNode(node, macroCall)
    case None =>
      (match TextOf(node, source)
       case Err(error) => Err(error)
       case Ok(text) => WithCaller(text, TrimEndBangs(text), IsQualified(text), macroCall, enclosing))
    case Some(callee) =>
      match TextOf(callee, source)
      case Err(error) => Err(error)
      case Ok(text) =>
        match QualifiedCallee(callee, source)
        case Err(error) => Err(error)
        case Ok(qualified) =>
          match SimpleName(callee, source)
          case Err(error) => Err(error)
          case Ok(name) =>
            WithCaller(text, if name.Some? then name.value else TrimEndBangs(text), qualified, macroCall, enclosing)
  }

  function WithCaller(text: Text, name: Text, qualified: bool, macroCall: bool, enclosing: Caller): Result<CallSite, TextRangeError> {
    match enclosing
    case Err(error) => Err(error)
    case Ok(caller) => Ok(CallSite(text, name, caller, macroCall, qualified))
  }

  /** Every call that has fields reports its nearest enclosing function. */
  lemma CallPartsCaller(node: Tree, source: Text, macroCall: bool, enclosing: Caller)
    ensures CallParts(node, source, macroCall, enclosing).Ok? ==>
              enclosing == Ok(CallParts(node, source, macroCall, enclosing).value.caller)
    ensures enclosing.Err? ==> CallParts(node, source, macroCall, enclosing).Err?
  {
  }
}
