/** The boolean literal node: built from a `true` or `false` keyword token,
    or copied from another node; its value is read off the token. */
module BooleanConstantNode {
  import opened Wrappers
  import opened Lexical
  import opened Ast

  const BooleanKeywords: set<Lextant> := {Keyword(True), Keyword(False)}

  /** Construction from a token: the token must be `true` or `false`. */
  function FromToken(id: NodeId, t: Token): (n: Node)
    requires IsLextant(t, BooleanKeywords)
    ensures n.BooleanConstant? && n.id == id && n.tok == t
    ensures IsLeaf(n) && Children(n) == []
  {
    BooleanConstant(id, t)
  }

  /** Construction by copying another node's token; nothing is checked. */
  function FromNode(id: NodeId, other: Node): (n: Node)
    ensures n.BooleanConstant? && n.id == id && n.tok == other.tok
  {
    BooleanConstant(id, other.tok)
  }

  /** getValue: true exactly when the token is the `true` keyword. */
  function GetValue(n: Node): (b: bool)
    requires n.BooleanConstant?
    ensures b <==> IsLextant(n.tok, {Keyword(True)})
  {
    n.tok.lextant == Some(Keyword(True))
  }

  /** For a node built from a token, the value is false exactly when the
      token is the `false` keyword. */
  lemma FalseExactlyForFalseKeyword(id: NodeId, t: Token)
    requires IsLextant(t, BooleanKeywords)
    ensures !GetValue(FromToken(id, t)) <==> IsLextant(t, {Keyword(False)})
    ensures GetValue(FromToken(id, t)) <==> IsLextant(t, {Keyword(True)})
  {
    assert t.lextant.value in BooleanKeywords;
  }

  /** The copying constructor does not check its token, so there the value is
      also false for a token that is not a boolean keyword at all. */
  lemma CopiedNodeWithOtherToken(id: NodeId, other: Node)
    requires !IsLextant(other.tok, BooleanKeywords)
    ensures !GetValue(FromNode(id, other)) && !IsLextant(FromNode(id, other).tok, {Keyword(False)})
  {
  }
}
