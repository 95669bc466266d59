/** Which nodes declare a variable or a field, and the name they give it. */
module Bindings {
  import opened Sequences
  import opened SyntaxTree
  import opened Evidence

  /** A node that binds a variable, in any grammar. */
  predicate IsVariableBinding(kind: Kind) {
    kind.LetDeclaration? || kind.ConstDeclaration? || kind.VarDeclaration? ||
    kind.ValDeclaration? || kind.BindingNode? || kind.Parameter? || kind.Assignment?
  }

  /** A node that declares a field. */
  predicate IsFieldDeclaration(kind: Kind) {
    kind.FieldDeclaration? || kind.PropertyDeclaration? || kind.FieldDefinition? ||
    kind.PublicFieldDefinition? || kind.PropertySignature?
  }

  /** A node that names a binding or a member; type names are not among them. */
  predicate IsIdentifierKind(kind: Kind) {
    kind.Identifier? || kind.FieldIdentifier? || kind.FieldName? ||
    kind.ShorthandPropertyIdentifier? || kind.PropertyIdentifier? || kind.SimpleIdentifier?
  }

  /** How a node that binds is recorded, and under which keys; `None` for any other node. */
  function BindingKind(kind: Kind): (r: Option<(SymbolKind, Prefix)>)
    ensures r.Some? ==> r.value.1 == if r.value.0 == FieldSymbol then FieldKey else VariableKey
    ensures r.Some? && r.value.0 == FieldSymbol <==>
              kind in {FieldDeclaration, PropertyDeclaration, FieldDefinition, PublicFieldDefinition, PropertySignature}
    ensures r.Some? && r.value.0 == ConstantSymbol <==> kind == ConstDeclaration
    ensures r.Some? && r.value.0 == VariableSymbol <==>
              kind in {LetDeclaration, VarDeclaration, ValDeclaration, BindingNode, Parameter, Assignment}
  {
    if IsFieldDeclaration(kind) then Some((FieldSymbol, FieldKey))
    else if IsVariableBinding(kind) then
      Some((if kind.ConstDeclaration? then ConstantSymbol else VariableSymbol, VariableKey))
    else None
  }

  function FirstIdentifier(nodes: seq<Tree>): Option<Tree> {
    if nodes == [] then None
    else if IsIdentifierKind(nodes[0].kind) then Some(nodes[0])
    else FirstIdentifier(nodes[1..])
  }

  /** What a binding is called: a whole level of children is checked before any is entered. */
  function IdentifierName(node: Tree, source: Text): Result<Option<Text>, TextRangeError> {
    match FirstIdentifier(Kids(node))
    case Some(child) => NameText(child, source)
    case None => FirstDescendant(node, source, 0)
  }

  function NameText(node: Tree, source: Text): Result<Option<Text>, TextRangeError> {
    match TextOf(node, source)
    case Ok(text) => Ok(Some(text))
    case Err(error) => Err(error)
  }

  function FirstDescendant(node: Tree, source: Text, depth: nat): Result<Option<Text>, TextRangeError>
    decreases 3 - depth, 0, 0
  {
    if depth >= 3 then Ok(None)
    else
      match FirstIdentifier(Kids(node))
      case Some(child) => NameText(child, source)
      case None => FirstAmong(Kids(node), source, depth + 1)
  }

  function FirstAmong(nodes: seq<Tree>, source: Text, depth: nat): Result<Option<Text>, TextRangeError>
    requires depth <= 3
    decreases 3 - depth, 1, |nodes|
  {
    if nodes == [] then Ok(None)
    else
      var found := FirstDescendant(nodes[0], source, depth);
      if found == Ok(None) then FirstAmong(nodes[1..], source, depth) else found
  }
}
