/** The parse tree the two passes walk: one constructor per node class.
    `id` stands for the node's object identity, `tok` for its token. */
module Ast {
  import opened Wrappers
  import opened Lexical

  type NodeId = nat

  datatype Node =
    | Program(id: NodeId, tok: Token, children: seq<Node>)
    | MainBlock(id: NodeId, tok: Token, children: seq<Node>)
    | Declaration(id: NodeId, tok: Token, target: Node, init: Node)
    | LetStatement(id: NodeId, tok: Token, target: Node, init: Node)
    | PrintStatement(id: NodeId, tok: Token, children: seq<Node>)
    | BinaryOperator(id: NodeId, tok: Token, left: Node, right: Node)
    | UnaryOperator(id: NodeId, tok: Token, operand: Node)
    | Identifier(id: NodeId, tok: Token)
    | BooleanConstant(id: NodeId, tok: Token)
    | IntegerConstant(id: NodeId, tok: Token, intValue: int)
    | FloatConstant(id: NodeId, tok: Token)
    | CharacterConstant(id: NodeId, tok: Token, charValue: char)
    | StringConstant(id: NodeId, tok: Token, stringValue: string)
    | ErrorNode(id: NodeId, tok: Token)
    | Newline(id: NodeId, tok: Token)
    | Separator(id: NodeId, tok: Token)

  /** Leaves are visited once, with no enter/leave and no child traversal. */
  predicate IsLeaf(n: Node) {
    n.Identifier? || n.BooleanConstant? || n.IntegerConstant? || n.FloatConstant?
    || n.CharacterConstant? || n.StringConstant? || n.ErrorNode? || n.Newline? || n.Separator?
  }

  /** The children in the order the visitors traverse them. */
  function Children(n: Node): (r: seq<Node>)
    ensures forall c :: c in r ==> c < n
    ensures IsLeaf(n) ==> r == []
    ensures n.Declaration? || n.LetStatement? ==> r == [n.target, n.init]
    ensures n.BinaryOperator? ==> r == [n.left, n.right]
  {
    match n
    case Program(_, _, cs) => cs
    case MainBlock(_, _, cs) => cs
    case PrintStatement(_, _, cs) => cs
    case Declaration(_, _, t, i) => [t, i]
    case LetStatement(_, _, t, i) => [t, i]
    case BinaryOperator(_, _, l, r) => [l, r]
    case UnaryOperator(_, _, o) => [o]
    case _ => []
  }

  /** Nodes whose visit leaves them with a type. */
  predicate IsExpression(n: Node) {
    n.BinaryOperator? || n.UnaryOperator? || n.Identifier? || n.BooleanConstant?
    || n.IntegerConstant? || n.FloatConstant? || n.CharacterConstant?
    || n.StringConstant? || n.ErrorNode?
  }

  /** The identities of all nodes of a tree. */
  function Ids(n: Node): (r: set<NodeId>)
    ensures n.id in r
    ensures forall c :: c in Children(n) ==> Ids(c) <= r
    decreases n
  {
    {n.id} + (set c, k | c in Children(n) && k in Ids(c) :: k)
  }

  /** No two nodes of the tree share an identity (Java object identity). */
  ghost predicate UniqueIds(n: Node)
    decreases n
  {
    var cs := Children(n);
    && (forall c :: c in cs ==> n.id !in Ids(c))
    && (forall i, j :: 0 <= i < j < |cs| ==> Ids(cs[i]) !! Ids(cs[j]))
    && (forall c :: c in cs ==> UniqueIds(c))
  }

  /** The shape the parser builds below the program node: no nested program,
      declaration and let targets are identifiers (the analyzer casts them),
      operator tokens are lextant tokens (the analyzer casts them too), and
      initializers and operands are expressions. */
  ghost predicate WellFormed(n: Node)
    decreases n
  {
    && !n.Program?
    && ((n.Declaration? || n.LetStatement?) ==> n.target.Identifier? && IsExpression(n.init))
    && ((n.BinaryOperator? || n.UnaryOperator?) ==> n.tok.lextant.Some?)
    && (n.BinaryOperator? ==> IsExpression(n.left) && IsExpression(n.right))
    && (n.UnaryOperator? ==> IsExpression(n.operand))
    && (n.PrintStatement? ==> forall c :: c in n.children ==> IsExpression(c) || c.Newline? || c.Separator?)
    && (forall c :: c in Children(n) ==> WellFormed(c))
  }

  ghost predicate WellFormedProgram(p: Node) {
    p.Program? && forall c :: c in p.children ==> WellFormed(c)
  }
}
