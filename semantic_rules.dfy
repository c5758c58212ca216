/** The typing rules of the semantic analysis pass, as functions over the
    facts the pass records: the type of each node, the binding attached to
    each identifier, the program scope's table and the bindings it has
    created, and the diagnostics logged so far. */
module SemanticRules {
  import opened Wrappers
  import opened Lexical
  import opened Types
  import opened Ast
  import opened SymbolTable

  datatype Diagnostic =
    | IncompatibleOperands(node: NodeId, lexeme: string, operandTypes: seq<PrimitiveType>)
    | UndeclaredIdentifier(node: NodeId, name: string)

  datatype Facts = Facts(
    types: map<NodeId, PrimitiveType>,
    bindings: map<NodeId, Binding>,
    table: map<string, Binding>,
    created: seq<Binding>,
    errors: seq<Diagnostic>)

  /** What the pass only ever adds to: typed nodes, created bindings, logged
      diagnostics. */
  ghost predicate Grows(f: Facts, g: Facts) {
    && f.types.Keys <= g.types.Keys
    && |f.created| <= |g.created| && g.created[..|f.created|] == f.created
    && |f.errors| <= |g.errors| && g.errors[..|f.errors|] == f.errors
  }

  /** The scope invariant: packed storage, and every table entry is a
      created binding under its own name. */
  ghost predicate ScopeConsistent(f: Facts) {
    && Packed(f.created)
    && forall name :: name in f.table ==> f.table[name] in f.created && f.table[name].name == name
  }

  /** isBeingDeclared: exactly the first child of a declaration. */
  predicate IsBeingDeclared(parent: Node, index: nat) {
    parent.Declaration? && index == 0
  }

  ghost predicate ChildrenWellFormed(n: Node) {
    forall c :: c in Children(n) ==> WellFormed(c)
  }

  /** The children whose types the leave rule of `n` reads. */
  ghost predicate ChildTypesKnown(n: Node, f: Facts) {
    forall j :: 0 <= j < |Children(n)| && IsExpression(Children(n)[j]) && !IsBeingDeclared(n, j)
      ==> Children(n)[j].id in f.types
  }

  /** Analysis of a node below the program: its children in order, then its
      own rule. `declaring` says whether it is the first child of a
      declaration. */
  function Analyze(n: Node, declaring: bool, f: Facts, sigs: SignatureTable): (g: Facts)
    requires WellFormed(n)
    ensures Grows(f, g)
    ensures IsExpression(n) && !declaring ==> n.id in g.types
    decreases n, 1
  {
    LeaveRule(n, declaring, AnalyzeChildren(n, |Children(n)|, f, sigs), sigs)
  }

  /** Analysis of the first `i` children of `n`. */
  function AnalyzeChildren(n: Node, i: nat, f: Facts, sigs: SignatureTable): (g: Facts)
    requires ChildrenWellFormed(n) && i <= |Children(n)|
    ensures Grows(f, g)
    ensures forall j :: 0 <= j < i && IsExpression(Children(n)[j]) && !IsBeingDeclared(n, j)
              ==> Children(n)[j].id in g.types
    decreases n, 0, i
  {
    if i == 0 then f
    else
      var f1 := AnalyzeChildren(n, i - 1, f, sigs);
      Analyze(Children(n)[i - 1], IsBeingDeclared(n, i - 1), f1, sigs)
  }

  /** The rule each node kind applies once its children are analyzed (for a
      leaf: its visit). */
  function LeaveRule(n: Node, declaring: bool, f: Facts, sigs: SignatureTable): (g: Facts)
    requires WellFormed(n) && ChildTypesKnown(n, f)
    ensures Grows(f, g)
    ensures IsExpression(n) && !declaring ==> n.id in g.types
  {
    match n
    case MainBlock(_, _, _) => f
    case PrintStatement(_, _, _) => f
    case Newline(_, _) => f
    case Separator(_, _) => f
    case Declaration(id, _, target, init) =>
      assert Children(n)[1] == init;
      Declare(id, target, f.types[init.id], f)
    case LetStatement(id, _, target, init) =>
      assert Children(n)[1] == init;
      Declare(id, target, f.types[init.id], f)
    case BinaryOperator(id, tok, l, r) =>
      assert Children(n)[0] == l && Children(n)[1] == r;
      CheckOperator(id, tok, [f.types[l.id], f.types[r.id]], f, sigs)
    case UnaryOperator(id, tok, o) =>
      assert Children(n)[0] == o;
      CheckOperator(id, tok, [f.types[o.id]], f, sigs)
    case Identifier(id, tok) => if declaring then f else Resolve(id, tok.lexeme, f)
    case BooleanConstant(id, _) => f.(types := f.types[id := Boolean])
    case ErrorNode(id, _) => f.(types := f.types[id := Error])
    case IntegerConstant(id, _, _) => f.(types := f.types[id := Integer])
    case FloatConstant(id, _) => f.(types := f.types[id := Float])
    case CharacterConstant(id, _, _) => f.(types := f.types[id := Character])
    case StringConstant(id, _, _) => f.(types := f.types[id := String])
  }

  /** Declaration and let: the statement and the identifier take the
      initializer's type, and a binding of that type is created at the next
      free offset and attached to the identifier. */
  function Declare(id: NodeId, target: Node, t: PrimitiveType, f: Facts): Facts {
    var b := Binding(target.tok.lexeme, t, SumWidths(f.created));
    f.(types := f.types[id := t][target.id := t],
       bindings := f.bindings[target.id := b],
       table := f.table[b.name := b],
       created := f.created + [b])
  }

  /** An operator node: the matching signature's result type, or one
      incompatible-operand diagnostic and the type `Error`. */
  function CheckOperator(id: NodeId, tok: Token, operandTypes: seq<PrimitiveType>, f: Facts,
                         sigs: SignatureTable): Facts
    requires tok.lextant.Some?
  {
    var s := sigs(tok.lextant.value);
    if Accepts(s, operandTypes) then
      f.(types := f.types[id := ResultType(s, operandTypes)])
    else
      f.(types := f.types[id := Error],
         errors := f.errors + [IncompatibleOperands(id, tok.lexeme, operandTypes)])
  }

  /** An identifier in use position: its binding's type and the binding, or
      one undeclared-identifier diagnostic and the type `Error`. */
  function Resolve(id: NodeId, name: string, f: Facts): Facts {
    if name in f.table then
      f.(types := f.types[id := f.table[name].typ], bindings := f.bindings[id := f.table[name]])
    else
      f.(types := f.types[id := Error], errors := f.errors + [UndeclaredIdentifier(id, name)])
  }

  /** The whole pass: entering the program opens a fresh, empty program
      scope; then the children are analyzed in order. */
  function AnalyzeProgram(p: Node, f: Facts, sigs: SignatureTable): (g: Facts)
    requires WellFormedProgram(p)
  {
    AnalyzeChildren(p, |p.children|, f.(table := map[], created := []), sigs)
  }
}
