/** The semantic analysis visitor: it walks the tree once, recording each
    node's type and each identifier's binding, creating the program scope
    and the bindings in it, and logging diagnostics. Each step is proved to
    do what the rule of that node kind in SemanticRules says. */
module SemanticAnalysisVisitor {
  import opened Wrappers
  import opened Lexical
  import opened Types
  import opened Ast
  import opened SymbolTable
  import opened SemanticRules

  class Analyzer {
    const signatures: SignatureTable
    /** node.setType / node.setBinding / node.setScope, by node identity. */
    var types: map<NodeId, PrimitiveType>
    var bindings: map<NodeId, Binding>
    var scopeOf: map<NodeId, Scope>
    /** The logger, as the sequence of diagnostics it has received. */
    ghost var errors: seq<Diagnostic>
    /** The scope that getLocalScope() finds for nodes below the program. */
    var scope: Scope?

    ghost function Facts(): Facts
      reads this, scope
      requires scope != null
    {
      SemanticRules.Facts(types, bindings, scope.table, scope.created, errors)
    }

    constructor(signatures: SignatureTable)
      ensures this.signatures == signatures
      ensures types == map[] && bindings == map[] && scopeOf == map[] && errors == []
      ensures scope == null
    {
      this.signatures := signatures;
      types := map[];
      bindings := map[];
      scopeOf := map[];
      errors := [];
      scope := null;
    }

    /** The program node: visitEnter creates the program scope and attaches
        it to the node, the children are visited, visitLeave leaves that
        same scope. */
    method VisitProgram(p: Node)
      requires WellFormedProgram(p)
      modifies this
      ensures scope != null && fresh(scope) && scope.Valid() && !scope.isOpen
      ensures scopeOf == old(scopeOf)[p.id := scope]
      ensures Facts() == AnalyzeProgram(p, SemanticRules.Facts(old(types), old(bindings), map[], [], old(errors)), signatures)
    {
      // visitEnter(ProgramNode)
      var s := new Scope.CreateProgramScope();
      scopeOf := scopeOf[p.id := s];
      scope := s;
      ghost var start := Facts();
      var i := 0;
      while i < |p.children|
        invariant 0 <= i <= |p.children|
        invariant scope == s && s.Valid() && s.isOpen
        invariant scopeOf == old(scopeOf)[p.id := s]
        invariant Facts() == AnalyzeChildren(p, i, start, signatures)
      {
        VisitChild(p, i, start);
        i := i + 1;
      }
      // visitLeave(ProgramNode)
      scopeOf[p.id].Leave();
    }

    /** accept: the children in order, then the node's own rule. */
    method Visit(n: Node, declaring: bool)
      requires WellFormed(n) && scope != null && scope.Valid()
      modifies this, scope
      ensures scope == old(scope) && scope.Valid() && scope.isOpen == old(scope.isOpen)
      ensures scopeOf == old(scopeOf)
      ensures Facts() == Analyze(n, declaring, old(Facts()), signatures)
      decreases n, 1
    {
      ghost var start := Facts();
      assert ChildrenWellFormed(n);
      VisitChildren(n);
      ghost var mid := Facts();
      assert ChildTypesKnown(n, mid);
      Leave(n, declaring);
      assert Analyze(n, declaring, start, signatures) == LeaveRule(n, declaring, mid, signatures);
    }

    /** The children of `n`, each visited in order. */
    method VisitChildren(n: Node)
      requires ChildrenWellFormed(n) && scope != null && scope.Valid()
      modifies this, scope
      ensures scope == old(scope) && scope.Valid() && scope.isOpen == old(scope.isOpen)
      ensures scopeOf == old(scopeOf)
      ensures Facts() == AnalyzeChildren(n, |Children(n)|, old(Facts()), signatures)
      decreases n, 0
    {
      var ch := Children(n);
      ghost var start := Facts();
      var i := 0;
      while i < |ch|
        invariant 0 <= i <= |ch|
        invariant scope == old(scope) && scope.Valid() && scope.isOpen == old(scope.isOpen)
        invariant scopeOf == old(scopeOf)
        invariant Facts() == AnalyzeChildren(n, i, start, signatures)
      {
        VisitChild(n, i, start);
        i := i + 1;
      }
    }

    /** Child `i` of `n` visited, as the children rule's step `i`. */
    method VisitChild(n: Node, i: nat, ghost start: Facts)
      requires ChildrenWellFormed(n) && i < |Children(n)| && scope != null && scope.Valid()
      requires Facts() == AnalyzeChildren(n, i, start, signatures)
      modifies this, scope
      ensures scope == old(scope) && scope.Valid() && scope.isOpen == old(scope.isOpen)
      ensures scopeOf == old(scopeOf)
      ensures Facts() == AnalyzeChildren(n, i + 1, start, signatures)
      decreases n, 0, 0
    {
      var c := Children(n)[i];
      assert c in Children(n);
      ghost var before := Facts();
      Visit(c, IsBeingDeclared(n, i));
      assert Facts() == Analyze(c, IsBeingDeclared(n, i), before, signatures);
    }

    /** visit (leaves) and visitLeave (inner nodes), one branch per kind. */
    method Leave(n: Node, declaring: bool)
      requires WellFormed(n) && scope != null && scope.Valid() && ChildTypesKnown(n, Facts())
      modifies this, scope
      ensures scope == old(scope) && scope.Valid() && scope.isOpen == old(scope.isOpen)
      ensures scopeOf == old(scopeOf)
      ensures Facts() == LeaveRule(n, declaring, old(Facts()), signatures)
    {
      match n {
        case MainBlock(_, _, _) =>
        case PrintStatement(_, _, _) =>
        case Newline(_, _) =>
        case Separator(_, _) =>
        case Declaration(id, _, target, init) =>
          assert Children(n)[1] == init;
          var t := types[init.id];
          types := types[id := t];
          types := types[target.id := t];
          AddBinding(target, t);
        case LetStatement(id, _, target, init) =>
          assert Children(n)[1] == init;
          var t := types[init.id];
          types := types[id := t];
          types := types[target.id := t];
          AddBinding(target, t);
        case BinaryOperator(id, tok, l, r) =>
          assert Children(n)[0] == l && Children(n)[1] == r;
          CheckOperator(id, tok, [types[l.id], types[r.id]]);
        case UnaryOperator(id, tok, o) =>
          assert Children(n)[0] == o;
          CheckOperator(id, tok, [types[o.id]]);
        case Identifier(id, tok) =>
          if !declaring {
            var found := scope.FindBinding(tok.lexeme);
            match found {
              case Some(b) =>
                types := types[id := b.typ];
                bindings := bindings[id := b];
              case None =>
                errors := errors + [UndeclaredIdentifier(id, tok.lexeme)];
                types := types[id := Error];
            }
          }
        case BooleanConstant(id, _) => types := types[id := Boolean];
        case ErrorNode(id, _) => types := types[id := Error];
        case IntegerConstant(id, _, _) => types := types[id := Integer];
        case FloatConstant(id, _) => types := types[id := Float];
        case CharacterConstant(id, _, _) => types := types[id := Character];
        case StringConstant(id, _, _) => types := types[id := String];
      }
    }

    /** addBinding: create the binding in the identifier's scope and attach it. */
    method AddBinding(identifier: Node, t: PrimitiveType)
      requires scope != null && scope.Valid()
      modifies this, scope
      ensures scope == old(scope) && scope.Valid() && scope.isOpen == old(scope.isOpen)
      ensures scopeOf == old(scopeOf) && types == old(types) && errors == old(errors)
      ensures var b := Binding(identifier.tok.lexeme, t, SumWidths(old(scope.created)));
              && bindings == old(bindings)[identifier.id := b]
              && scope.table == old(scope.table)[b.name := b]
              && scope.created == old(scope.created) + [b]
    {
      var b := scope.CreateBinding(identifier.tok.lexeme, t);
      bindings := bindings[identifier.id := b];
    }

    /** The operator rule shared by binary and unary nodes: accepted operand
        types give the signature's result; otherwise typeCheckError logs one
        diagnostic and the node gets `Error`. */
    method CheckOperator(id: NodeId, tok: Token, childTypes: seq<PrimitiveType>)
      requires tok.lextant.Some? && scope != null
      modifies this
      ensures scope == old(scope) && scopeOf == old(scopeOf) && bindings == old(bindings)
      ensures Facts() == SemanticRules.CheckOperator(id, tok, childTypes, old(Facts()), signatures)
    {
      var operator := tok.lextant.value;
      var signature := signatures(operator);
      var resultType := ResultType(signature, childTypes);
      if Accepts(signature, childTypes) {
        types := types[id := resultType];
      } else {
        errors := errors + [IncompatibleOperands(id, tok.lexeme, childTypes)];
        types := types[id := Error];
      }
    }
  }
}
