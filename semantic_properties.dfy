/** What the typing rules guarantee, node kind by node kind, and the scope
    invariant the whole pass keeps. */
module SemanticProperties {
  import opened Wrappers
  import opened Lexical
  import opened Types
  import opened Ast
  import opened SymbolTable
  import opened SemanticRules

  /** Analysis of a node with one child, unfolded. */
  lemma UnfoldOne(n: Node, declaring: bool, f: Facts, sigs: SignatureTable)
    requires WellFormed(n) && |Children(n)| == 1
    ensures Analyze(n, declaring, f, sigs) == LeaveRule(n, declaring, AnalyzeChildren(n, 1, f, sigs), sigs)
    ensures AnalyzeChildren(n, 1, f, sigs) == Analyze(Children(n)[0], false, f, sigs)
  {
    assert Children(n)[0] in Children(n);
    assert AnalyzeChildren(n, 0, f, sigs) == f;
  }

  /** Analysis of a node with two children, unfolded. */
  lemma UnfoldTwo(n: Node, declaring: bool, f: Facts, sigs: SignatureTable)
    requires WellFormed(n) && |Children(n)| == 2
    ensures Analyze(n, declaring, f, sigs) == LeaveRule(n, declaring, AnalyzeChildren(n, 2, f, sigs), sigs)
    ensures AnalyzeChildren(n, 1, f, sigs) == Analyze(Children(n)[0], IsBeingDeclared(n, 0), f, sigs)
    ensures AnalyzeChildren(n, 2, f, sigs)
            == Analyze(Children(n)[1], false, AnalyzeChildren(n, 1, f, sigs), sigs)
  {
    assert Children(n)[0] in Children(n) && Children(n)[1] in Children(n);
    assert AnalyzeChildren(n, 0, f, sigs) == f;
  }

  /** Literal leaves get their own type and nothing else changes; an error
      node gets `Error`. */
  lemma LiteralTypes(n: Node, declaring: bool, f: Facts, sigs: SignatureTable)
    requires WellFormed(n) && IsLeaf(n) && !n.Identifier? && !n.Newline? && !n.Separator?
    ensures var t := match n
              case BooleanConstant(_, _) => Boolean
              case IntegerConstant(_, _, _) => Integer
              case FloatConstant(_, _) => Float
              case CharacterConstant(_, _, _) => Character
              case StringConstant(_, _, _) => String
              case _ => Error;
            Analyze(n, declaring, f, sigs) == f.(types := f.types[n.id := t])
  {
  }

  /** Print statements, main blocks, newlines and separators get no type:
      only their children's analysis changes anything. */
  lemma UntypedStatements(n: Node, declaring: bool, f: Facts, sigs: SignatureTable)
    requires WellFormed(n) && (n.PrintStatement? || n.MainBlock? || n.Newline? || n.Separator?)
    ensures Analyze(n, declaring, f, sigs) == AnalyzeChildren(n, |Children(n)|, f, sigs)
  {
  }

  /** Expressions never touch the scope: no binding is created while an
      initializer or an operand is analyzed. */
  lemma {:induction false} ExpressionKeepsScope(n: Node, declaring: bool, f: Facts, sigs: SignatureTable)
    requires WellFormed(n) && IsExpression(n)
    ensures Analyze(n, declaring, f, sigs).table == f.table
    ensures Analyze(n, declaring, f, sigs).created == f.created
    decreases n
  {
    if n.BinaryOperator? {
      UnfoldTwo(n, declaring, f, sigs);
      ExpressionKeepsScope(n.left, false, f, sigs);
      ExpressionKeepsScope(n.right, false, Analyze(n.left, false, f, sigs), sigs);
    } else if n.UnaryOperator? {
      UnfoldOne(n, declaring, f, sigs);
      ExpressionKeepsScope(n.operand, false, f, sigs);
    } else {
      assert Children(n) == [];
      assert AnalyzeChildren(n, 0, f, sigs) == f;
    }
  }

  /** A declaration: the statement, the identifier and the initializer share
      one type, and a binding of that type is created at the scope's current
      size, entered in the table and attached to the identifier. */
  lemma DeclarationRule(n: Node, f: Facts, sigs: SignatureTable)
    requires WellFormed(n) && n.Declaration?
    ensures var fi := Analyze(n.init, false, f, sigs);
            var g := Analyze(n, false, f, sigs);
            var t := fi.types[n.init.id];
            var b := Binding(n.target.tok.lexeme, t, SumWidths(f.created));
            && g.types == fi.types[n.id := t][n.target.id := t]
            && g.types[n.id] == t && g.types[n.target.id] == t
            && g.bindings == fi.bindings[n.target.id := b]
            && g.table == f.table[b.name := b]
            && g.created == f.created + [b]
            && g.errors == fi.errors
  {
    UnfoldTwo(n, false, f, sigs);
    assert AnalyzeChildren(n.target, 0, f, sigs) == f;
    assert Analyze(n.target, true, f, sigs) == f;
    ExpressionKeepsScope(n.init, false, f, sigs);
  }

  /** A let statement: its target is first looked up as a reference (an
      undeclared name is reported), then the same rule as a declaration
      applies. */
  lemma LetRule(n: Node, f: Facts, sigs: SignatureTable)
    requires WellFormed(n) && n.LetStatement?
    ensures var name := n.target.tok.lexeme;
            var f0 := Resolve(n.target.id, name, f);
            var fi := Analyze(n.init, false, f0, sigs);
            var g := Analyze(n, false, f, sigs);
            var t := fi.types[n.init.id];
            var b := Binding(name, t, SumWidths(f.created));
            && g.types == fi.types[n.id := t][n.target.id := t]
            && g.types[n.id] == t && g.types[n.target.id] == t
            && g.bindings == fi.bindings[n.target.id := b]
            && g.table == f.table[b.name := b]
            && g.created == f.created + [b]
            && g.errors == fi.errors
            && (name in f.table ==> f0.errors == f.errors)
            && (name !in f.table ==>
                  |g.errors| > |f.errors| && g.errors[|f.errors|] == UndeclaredIdentifier(n.target.id, name))
  {
    var f0 := Resolve(n.target.id, n.target.tok.lexeme, f);
    UnfoldTwo(n, false, f, sigs);
    assert AnalyzeChildren(n.target, 0, f, sigs) == f;
    assert Analyze(n.target, false, f, sigs) == f0;
    ExpressionKeepsScope(n.init, false, f0, sigs);
    var fi := Analyze(n.init, false, f0, sigs);
    assert fi.errors[..|f0.errors|] == f0.errors;
    if n.target.tok.lexeme !in f.table {
      assert f0.errors == f.errors + [UndeclaredIdentifier(n.target.id, n.target.tok.lexeme)];
      assert fi.errors[|f.errors|] == f0.errors[|f.errors|];
    }
  }

  /** A binary operator: accepted operand types give the signature's result
      and no diagnostic; otherwise exactly one diagnostic is logged and the
      node gets `Error`. Only the node's own type changes. */
  lemma BinaryOperatorRule(n: Node, f: Facts, sigs: SignatureTable)
    requires WellFormed(n) && n.BinaryOperator?
    ensures var f1 := Analyze(n.right, false, Analyze(n.left, false, f, sigs), sigs);
            var ts := [f1.types[n.left.id], f1.types[n.right.id]];
            var s := sigs(n.tok.lextant.value);
            var g := Analyze(n, false, f, sigs);
            && g.bindings == f1.bindings && g.table == f1.table && g.created == f1.created
            && (Accepts(s, ts) ==> g.types == f1.types[n.id := ResultType(s, ts)] && g.errors == f1.errors)
            && (!Accepts(s, ts) ==>
                  g.types == f1.types[n.id := Error]
                  && g.errors == f1.errors + [IncompatibleOperands(n.id, n.tok.lexeme, ts)])
  {
    UnfoldTwo(n, false, f, sigs);
  }

  /** A unary operator: the same rule on a one-element type list. */
  lemma UnaryOperatorRule(n: Node, f: Facts, sigs: SignatureTable)
    requires WellFormed(n) && n.UnaryOperator?
    ensures var f1 := Analyze(n.operand, false, f, sigs);
            var ts := [f1.types[n.operand.id]];
            var s := sigs(n.tok.lextant.value);
            var g := Analyze(n, false, f, sigs);
            && g.bindings == f1.bindings && g.table == f1.table && g.created == f1.created
            && (Accepts(s, ts) ==> g.types == f1.types[n.id := ResultType(s, ts)] && g.errors == f1.errors)
            && (!Accepts(s, ts) ==>
                  g.types == f1.types[n.id := Error]
                  && g.errors == f1.errors + [IncompatibleOperands(n.id, n.tok.lexeme, ts)])
  {
    UnfoldOne(n, false, f, sigs);
  }

  /** An identifier: in declaring position nothing happens (the declaration
      does the work); elsewhere it takes the type and binding found in the
      scope, or gets `Error` and one undeclared-identifier diagnostic. */
  lemma IdentifierRule(n: Node, declaring: bool, f: Facts, sigs: SignatureTable)
    requires n.Identifier?
    ensures var g := Analyze(n, declaring, f, sigs);
            var name := n.tok.lexeme;
            && (declaring ==> g == f)
            && (!declaring && name in f.table ==>
                  g.types == f.types[n.id := f.table[name].typ]
                  && g.bindings == f.bindings[n.id := f.table[name]] && g.errors == f.errors)
            && (!declaring && name !in f.table ==>
                  g.types == f.types[n.id := Error] && g.bindings == f.bindings
                  && g.errors == f.errors + [UndeclaredIdentifier(n.id, name)])
  {
  }

  /** Declaring position is exactly the first child of a declaration: a let
      target is analyzed as a reference. */
  lemma LetTargetIsAReference(n: Node)
    requires n.LetStatement? || n.Declaration?
    ensures IsBeingDeclared(n, 0) <==> n.Declaration?
    ensures !IsBeingDeclared(n, 1)
  {
  }

  /** The scope invariant survives the analysis of any node: storage stays
      packed and every name resolves to a binding created under it. */
  lemma {:induction false} ScopeStaysConsistent(n: Node, declaring: bool, f: Facts, sigs: SignatureTable)
    requires WellFormed(n) && ScopeConsistent(f)
    ensures ScopeConsistent(Analyze(n, declaring, f, sigs))
    decreases n, 1
  {
    ChildrenStayConsistent(n, |Children(n)|, f, sigs);
    LeaveKeepsConsistent(n, declaring, AnalyzeChildren(n, |Children(n)|, f, sigs), sigs);
  }

  /** Only declarations and lets change the scope, each by one binding. */
  lemma LeaveKeepsConsistent(n: Node, declaring: bool, f: Facts, sigs: SignatureTable)
    requires WellFormed(n) && ChildTypesKnown(n, f) && ScopeConsistent(f)
    ensures ScopeConsistent(LeaveRule(n, declaring, f, sigs))
  {
    if n.Declaration? || n.LetStatement? {
      assert Children(n)[1] == n.init;
      DeclareKeepsConsistent(n.id, n.target, f.types[n.init.id], f);
    }
  }

  lemma DeclareKeepsConsistent(id: NodeId, target: Node, t: PrimitiveType, f: Facts)
    requires ScopeConsistent(f)
    ensures ScopeConsistent(Declare(id, target, t, f))
  {
    var b := Binding(target.tok.lexeme, t, SumWidths(f.created));
    var g := Declare(id, target, t, f);
    assert g.created == f.created + [b] && g.table == f.table[b.name := b];
    PackedAppend(f.created, b);
    forall name | name in g.table ensures g.table[name] in g.created && g.table[name].name == name {
      if name == b.name {
        assert g.created[|f.created|] == b;
      } else {
        assert f.table[name] in f.created;
      }
    }
  }

  lemma {:induction false} ChildrenStayConsistent(n: Node, i: nat, f: Facts, sigs: SignatureTable)
    requires ChildrenWellFormed(n) && i <= |Children(n)| && ScopeConsistent(f)
    ensures ScopeConsistent(AnalyzeChildren(n, i, f, sigs))
    decreases n, 0, i
  {
    if i > 0 {
      ChildrenStayConsistent(n, i - 1, f, sigs);
      assert Children(n)[i - 1] in Children(n);
      ScopeStaysConsistent(Children(n)[i - 1], IsBeingDeclared(n, i - 1), AnalyzeChildren(n, i - 1, f, sigs), sigs);
    }
  }

  /** After the whole pass the program scope is consistent, so its bindings
      occupy disjoint storage inside the allocated size, which is the total
      width of all bindings. */
  lemma ProgramStorage(p: Node, f: Facts, sigs: SignatureTable, i: nat, j: nat)
    requires WellFormedProgram(p)
    requires i < j < |AnalyzeProgram(p, f, sigs).created|
    ensures var g := AnalyzeProgram(p, f, sigs);
            && ScopeConsistent(g)
            && g.created[i].offset + Width(g.created[i].typ) <= g.created[j].offset
            && g.created[j].offset + Width(g.created[j].typ) <= SumWidths(g.created)
  {
    ChildrenStayConsistent(p, |p.children|, f.(table := map[], created := []), sigs);
    StorageDisjoint(AnalyzeProgram(p, f, sigs).created, i, j);
  }

  /** With the standard signatures an `Error` operand is rejected again: the
      operator node is also `Error` and logs one more diagnostic. */
  lemma ErrorOperandCascades(n: Node, f: Facts)
    requires WellFormed(n) && n.BinaryOperator?
    requires var f1 := Analyze(n.right, false, Analyze(n.left, false, f, StandardSignatures), StandardSignatures);
             f1.types[n.left.id] == Error || f1.types[n.right.id] == Error
    ensures var f1 := Analyze(n.right, false, Analyze(n.left, false, f, StandardSignatures), StandardSignatures);
            var g := Analyze(n, false, f, StandardSignatures);
            g.types[n.id] == Error && |g.errors| == |f1.errors| + 1
  {
    var f1 := Analyze(n.right, false, Analyze(n.left, false, f, StandardSignatures), StandardSignatures);
    ErrorNeverAccepted(n.tok.lextant.value, [f1.types[n.left.id], f1.types[n.right.id]]);
    BinaryOperatorRule(n, f, StandardSignatures);
  }

  /** `1 + true` logs exactly one incompatible-operand diagnostic and is
      typed `Error`. */
  lemma OnePlusTrue(f: Facts)
    ensures var plus := BinaryOperator(3, Token("+", Some(Punctuation(Add))),
                                       IntegerConstant(1, Token("1", None), 1),
                                       BooleanConstant(2, Token("true", Some(Keyword(True)))));
            var g := Analyze(plus, false, f, StandardSignatures);
            && g.types[3] == Error
            && g.errors == f.errors + [IncompatibleOperands(3, "+", [Integer, Boolean])]
  {
    var plus := BinaryOperator(3, Token("+", Some(Punctuation(Add))),
                               IntegerConstant(1, Token("1", None), 1),
                               BooleanConstant(2, Token("true", Some(Keyword(True)))));
    assert WellFormed(plus.left) && WellFormed(plus.right);
    assert Children(plus) == [plus.left, plus.right];
    assert WellFormed(plus);
    var f0 := Analyze(plus.left, false, f, StandardSignatures);
    assert f0 == f.(types := f.types[1 := Integer]) by {
      LiteralTypes(plus.left, false, f, StandardSignatures);
    }
    var f1 := Analyze(plus.right, false, f0, StandardSignatures);
    assert f1 == f0.(types := f0.types[2 := Boolean]) by {
      LiteralTypes(plus.right, false, f0, StandardSignatures);
    }
    assert [f1.types[1], f1.types[2]] == [Integer, Boolean];
    ArithmeticSignatures(Add, Integer, Boolean);
    BinaryOperatorRule(plus, f, StandardSignatures);
  }
}
