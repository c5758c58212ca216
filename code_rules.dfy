/** What the code generator emits for each node kind, as functions of the
    decorated tree and the labeller's counter. `None` stands for the points
    where the generator stops with a failed assertion or an exception. */
module CodeRules {
  import opened Wrappers
  import L = Lexical
  import opened Types
  import opened Ast
  import opened SymbolTable
  import opened Asm
  import opened NumberLexemes
  import BooleanConstantNode

  /** What semantic analysis left on the tree: node types, identifier
      bindings, and the address code a binding emits (Binding.generateAddress
      is not part of this model, so it is an input). */
  datatype Decoration = Decoration(
    types: map<NodeId, PrimitiveType>,
    bindings: map<NodeId, Binding>,
    generateAddress: Binding -> seq<Instr>)

  /** node.getType(); `None` for a node analysis left untyped. */
  function TypeOf(d: Decoration, n: Node): Option<PrimitiveType> {
    if n.id in d.types then Some(d.types[n.id]) else None
  }

  /** turnAddressIntoValue's selection: a word load for integers and string
      addresses, a byte load for booleans and characters, a float load for
      floats; nothing for any other type. */
  function LoadOpcode(t: Option<PrimitiveType>): (r: Option<Opcode>)
    ensures r.Some? <==> t.Some? && t.value != Error
    ensures r.Some? ==> r.value in {LoadI, LoadC, LoadF} && AccessWidth(r.value) == Width(t.value)
  {
    match t
    case Some(Integer) => Some(LoadI)
    case Some(Boolean) => Some(LoadC)
    case Some(Float) => Some(LoadF)
    case Some(Character) => Some(LoadC)
    case Some(String) => Some(LoadI)
    case _ => None
  }

  /** opcodeForStore. */
  function StoreOpcode(t: Option<PrimitiveType>): (r: Option<Opcode>)
    ensures r.Some? <==> t.Some? && t.value != Error
    ensures r.Some? ==> r.value in {StoreI, StoreC, StoreF} && AccessWidth(r.value) == Width(t.value)
  {
    match t
    case Some(Integer) => Some(StoreI)
    case Some(Boolean) => Some(StoreC)
    case Some(Float) => Some(StoreF)
    case Some(Character) => Some(StoreC)
    case Some(String) => Some(StoreI)
    case _ => None
  }

  /** printFormat: the runtime format string of each printable type. */
  function PrintFormat(t: Option<PrimitiveType>): (r: Option<RuntimeSymbol>)
    ensures r.Some? <==> t.Some? && t.value != Error
  {
    match t
    case Some(Integer) => Some(IntegerPrintFormat)
    case Some(Boolean) => Some(BooleanPrintFormat)
    case Some(Float) => Some(FloatPrintFormat)
    case Some(Character) => Some(CharacterPrintFormat)
    case Some(String) => Some(StringPrintFormat)
    case _ => None
  }

  predicate IsComparisonOperator(l: L.Lextant) {
    l.Punctuation? && !IsArithmetic(l.punctuator)
  }

  predicate IsArithmeticOperator(l: L.Lextant) {
    l.Punctuation? && IsArithmetic(l.punctuator)
  }

  /** opcodeForOperator: integer opcodes for two integers, float opcodes for
      two floats, and no opcode (null) for any other pair. */
  function OpcodeForOperator(p: L.Punctuator, lt: Option<PrimitiveType>, rt: Option<PrimitiveType>)
    : (r: Option<Opcode>)
    requires IsArithmetic(p)
    ensures r.Some? <==> lt == rt && (lt == Some(Integer) || lt == Some(Float))
  {
    if lt == Some(Integer) && rt == Some(Integer) then
      Some(match p
           case Add => Add
           case Subtract => Subtract
           case Multiply => Multiply
           case _ => Divide)
    else if lt == Some(Float) && rt == Some(Float) then
      Some(match p
           case Add => FAdd
           case Subtract => FSubtract
           case Multiply => FMultiply
           case _ => FDivide)
    else
      None
  }

  /** removeValueCode: a void fragment is rejected, a value fragment is used
      as it is, and an address fragment gets the load for the node's type
      appended and becomes a value fragment. */
  function ValueOf(c: Code, t: Option<PrimitiveType>): (r: Option<Code>)
    ensures c.kind == GeneratesVoid ==> r.None?
    ensures c.kind == GeneratesValue ==> r == Some(c)
    ensures c.kind == GeneratesAddress ==>
              (r.Some? <==> LoadOpcode(t).Some?)
              && (r.Some? ==> r.value == Code(GeneratesValue, c.instrs + [Op(LoadOpcode(t).value)]))
  {
    match c.kind
    case GeneratesVoid => None
    case GeneratesValue => Some(c)
    case GeneratesAddress =>
      match LoadOpcode(t)
      case None => None
      case Some(op) => Some(Code(GeneratesValue, c.instrs + [Op(op)]))
  }

  // ---------------------------------------------------------------------
  // Leaves

  const StringLabelPrefix := "-str-constant-"

  /** The leaf visitors. The counter moves only for a string constant, whose
      data is placed under a freshly numbered label. */
  function LeafCode(n: Node, d: Decoration, ctr: nat): (r: Option<(Code, nat)>)
    requires IsLeaf(n)
    ensures r.Some? ==> r.value.1 == (if n.StringConstant? then ctr + 1 else ctr)
  {
    match n
    case BooleanConstant(_, _) =>
      Some((Code(GeneratesValue, [Instr(PushI, IntOperand(if BooleanConstantNode.GetValue(n) then 1 else 0))]), ctr))
    case Identifier(id, _) =>
      if id in d.bindings then Some((Code(GeneratesAddress, d.generateAddress(d.bindings[id])), ctr)) else None
    case IntegerConstant(_, _, v) => Some((Code(GeneratesValue, [Instr(PushI, IntOperand(v))]), ctr))
    case FloatConstant(_, tok) => Some((Code(GeneratesValue, [Instr(PushF, FloatOperand(tok.lexeme))]), ctr))
    case CharacterConstant(_, _, c) => Some((Code(GeneratesValue, [Instr(PushI, IntOperand(c as int))]), ctr))
    case StringConstant(_, _, s) =>
      var l := Generated(StringLabelPrefix, ctr + 1, "");
      Some((Code(GeneratesValue, [OpTo(DLabel, l), Instr(DataS, StringOperand(s)), OpTo(PushD, l)]), ctr + 1))
    case Newline(_, _) =>
      Some((Code(GeneratesVoid, [OpTo(PushD, Runtime(NewlinePrintFormat)), Op(Printf)]), ctr))
    case Separator(_, _) =>
      Some((Code(GeneratesVoid, [OpTo(PushD, Runtime(SeparatorPrintFormat)), Op(Printf)]), ctr))
    case ErrorNode(_, _) => None
  }

  // ---------------------------------------------------------------------
  // Blocks and statements

  /** The program and main-block visitors: every child must be void code,
      and the children's code is concatenated in order. */
  function BlockCode(codes: seq<Code>): (r: Option<seq<Instr>>)
  {
    if codes == [] then Some([])
    else
      match BlockCode(codes[..|codes| - 1])
      case None => None
      case Some(prefix) =>
        var last := codes[|codes| - 1];
        if last.kind == GeneratesVoid then Some(prefix + last.instrs) else None
  }

  function BlockLeave(codes: seq<Code>, ctr: nat): (r: Option<(Code, nat)>)
    ensures r.Some? ==> r.value.1 == ctr
  {
    match BlockCode(codes)
    case None => None
    case Some(body) => Some((Code(GeneratesVoid, body), ctr))
  }

  const PrintTruePrefix := "-print-boolean-true"
  const PrintJoinPrefix := "-print-boolean-join"

  /** convertToStringIfBoolean: replaces the boolean on the stack by the
      address of the "true" or "false" string. */
  function BooleanToString(k: nat): seq<Instr> {
    var t := Generated(PrintTruePrefix, k, "");
    var j := Generated(PrintJoinPrefix, k, "");
    [OpTo(JumpTrue, t), OpTo(PushD, Runtime(BooleanFalseString)), OpTo(Jump, j),
     OpTo(Label, t), OpTo(PushD, Runtime(BooleanTrueString)), OpTo(Label, j)]
  }

  /** One child of a print statement: newline and separator code as it is;
      any other child as value code, converted to a string if it is a
      boolean, then printed with its type's format. */
  function PrintItem(child: Node, c: Code, d: Decoration, ctr: nat): (r: Option<(seq<Instr>, nat)>)
    ensures r.Some? ==> r.value.1 == (if TypeOf(d, child) == Some(Boolean) && !child.Newline? && !child.Separator?
                                      then ctr + 1 else ctr)
  {
    if child.Newline? || child.Separator? then
      if c.kind == GeneratesVoid then Some((c.instrs, ctr)) else None
    else
      var t := TypeOf(d, child);
      match (PrintFormat(t), ValueOf(c, t))
      case (Some(format), Some(v)) =>
        var convert := if t == Some(Boolean) then BooleanToString(ctr + 1) else [];
        Some((v.instrs + convert + [OpTo(PushD, Runtime(format)), Op(Printf)],
              if t == Some(Boolean) then ctr + 1 else ctr))
      case _ => None
  }

  /** The print visitor's loop over the first |cs| children. */
  function PrintItems(cs: seq<Node>, codes: seq<Code>, d: Decoration, ctr: nat): (r: Option<(seq<Instr>, nat)>)
    requires |cs| == |codes|
    ensures r.Some? ==> r.value.1 >= ctr
  {
    if cs == [] then Some(([], ctr))
    else
      match PrintItems(cs[..|cs| - 1], codes[..|codes| - 1], d, ctr)
      case None => None
      case Some((prefix, c)) =>
        match PrintItem(cs[|cs| - 1], codes[|codes| - 1], d, c)
        case None => None
        case Some((item, c')) => Some((prefix + item, c'))
  }

  /** One more pass of the print loop extends the code by that child's item. */
  lemma {:induction false} PrintItemsStep(cs: seq<Node>, codes: seq<Code>, d: Decoration, ctr: nat, i: nat,
                       prefix: seq<Instr>, c: nat)
    requires i < |cs| == |codes|
    requires PrintItems(cs[..i], codes[..i], d, ctr) == Some((prefix, c))
    ensures PrintItems(cs[..i + 1], codes[..i + 1], d, ctr)
            == match PrintItem(cs[i], codes[i], d, c)
               case None => None
               case Some((item, c')) => Some((prefix + item, c'))
  {
    assert cs[..i + 1][..i] == cs[..i] && codes[..i + 1][..i] == codes[..i];
  }

  /** The declaration and let visitors: the target's address code, the
      initializer's value code, then the store for the statement's type. */
  function AssignmentCode(n: Node, codes: seq<Code>, d: Decoration): (r: Option<Code>)
    requires n.Declaration? || n.LetStatement?
    requires |codes| == 2
  {
    var target := codes[0];
    match (ValueOf(codes[1], TypeOf(d, n.init)), StoreOpcode(TypeOf(d, n)))
    case (Some(v), Some(store)) =>
      if target.kind == GeneratesAddress then
        Some(Code(GeneratesVoid, target.instrs + v.instrs + [Op(store)]))
      else None
    case _ => None
  }

  // ---------------------------------------------------------------------
  // Operators

  const DivideByZeroJump := OpTo(Jump, Runtime(DivideByZeroRuntimeError))

  /** The value the generator reads from the right operand's lexeme: the
      number it denotes, or -1 when it is not a number. */
  function RightValue(right: Node): real {
    match ParseNumber(right.tok.lexeme)
    case Some(v) => v
    case None => -1.0
  }

  /** The literal divide-by-zero check: the operator's lexeme is `/` and the
      right operand's lexeme denotes zero. */
  predicate DividesByLiteralZero(n: Node)
    requires n.BinaryOperator?
  {
    n.tok.lexeme == L.PunctuatorLexeme(L.Divide) && RightValue(n.right) == 0.0
  }

  /** visitNormalBinaryOperatorNode: both operands' value code, the jump to
      the divide-by-zero handler when the check fires, then the opcode (a
      null entry when the operand types have none). */
  function ArithmeticCode(n: Node, p: L.Punctuator, codes: seq<Code>, d: Decoration): (r: Option<Code>)
    requires n.BinaryOperator? && IsArithmetic(p) && |codes| == 2
  {
    match (ValueOf(codes[0], TypeOf(d, n.left)), ValueOf(codes[1], TypeOf(d, n.right)))
    case (Some(arg1), Some(arg2)) => Some(Code(GeneratesValue, arg1.instrs + arg2.instrs + ArithmeticTail(n, p, d)))
    case _ => None
  }

  /** What follows the operands: the divide-by-zero jump where the check
      fires, then the opcode. */
  function ArithmeticTail(n: Node, p: L.Punctuator, d: Decoration): seq<Instr>
    requires n.BinaryOperator? && IsArithmetic(p)
  {
    var check := if DividesByLiteralZero(n) then [DivideByZeroJump] else [];
    var op := match OpcodeForOperator(p, TypeOf(d, n.left), TypeOf(d, n.right))
              case Some(o) => Op(o)
              case None => NullOpcode;
    check + [op]
  }

  /** The six labels of one comparison, all numbered `k`. */
  datatype CompareLabels = CompareLabels(start: LabelName, arg2: LabelName, sub: LabelName,
                                         yes: LabelName, no: LabelName, join: LabelName)

  function CompareLabelsNumbered(k: nat): CompareLabels {
    CompareLabels(Generated("-compare-arg1-", k, ""), Generated("-compare-arg2-", k, ""),
                  Generated("-compare-sub-", k, ""), Generated("-compare-true-", k, ""),
                  Generated("-compare-false-", k, ""), Generated("-compare-join-", k, ""))
  }

  /** Whether the two operand lexemes denote the same value, as the
      generator decides it before choosing a `>=` or `<=` test: both lexemes
      are read as numbers when the left operand is an integer or a float
      (failing if either is not one), their first characters are compared
      when it is a character (failing on an empty lexeme), and otherwise the
      answer is yes. */
  function SameLiteralValue(lt: Option<PrimitiveType>, left: string, right: string): Option<bool> {
    if lt == Some(Integer) || lt == Some(Float) then
      match (ParseNumber(left), ParseNumber(right))
      case (Some(a), Some(b)) => Some(a - b == 0.0)
      case _ => None
    else if lt == Some(Character) then
      if |left| > 0 && |right| > 0 then Some(left[0] == right[0]) else None
    else
      Some(true)
  }

  /** `>`: a subtraction for two integers or a character left operand, a
      float subtraction for a float left operand, then a jump on positive. */
  function GreaterTest(lt: Option<PrimitiveType>, rt: Option<PrimitiveType>, yes: LabelName, no: LabelName)
    : seq<Instr>
  {
    if (lt == Some(Integer) && rt == Some(Integer)) || lt == Some(Character) then
      [Op(Subtract), OpTo(JumpPos, yes), OpTo(Jump, no)]
    else if lt == Some(Float) then [Op(FSubtract), OpTo(JumpFPos, yes), OpTo(Jump, no)]
    else []
  }

  /** `>=`: as `>`, except that the jump to true is on zero when the
      operands were found equal at compile time. */
  function GreaterOrEqualTest(lt: Option<PrimitiveType>, rt: Option<PrimitiveType>, same: bool,
                              yes: LabelName, no: LabelName): seq<Instr>
  {
    if lt == Some(Integer) && rt == Some(Integer) then
      [Op(Subtract), OpTo(if same then JumpFalse else JumpPos, yes), OpTo(Jump, no)]
    else if lt == Some(Float) then
      [Op(FSubtract), OpTo(if same then JumpFZero else JumpFPos, yes), OpTo(Jump, no)]
    else if lt == Some(Character) then
      [Op(Subtract), OpTo(if same then JumpFalse else JumpPos, yes), OpTo(Jump, no)]
    else []
  }

  /** `==`: a jump to true on a zero difference for numbers and characters;
      for strings a test decided by the lexemes; for booleans `BEqual`. */
  function EqualTest(lt: Option<PrimitiveType>, rt: Option<PrimitiveType>, left: string, right: string,
                     yes: LabelName, no: LabelName): seq<Instr>
  {
    if (lt == Some(Integer) && rt == Some(Integer)) || lt == Some(Character) then
      [Op(Subtract), OpTo(JumpFalse, yes), OpTo(Jump, no)]
    else if lt == Some(Float) then [Op(FSubtract), OpTo(JumpFZero, yes), OpTo(Jump, no)]
    else if lt == Some(String) then
      if '"' in left || '"' in right then
        [Op(Subtract), if left == right then OpTo(JumpFalse, yes) else OpTo(Jump, no)]
      else
        [Op(BEqual), if left == right then OpTo(JumpTrue, yes) else OpTo(Jump, no)]
    else if lt == Some(Boolean) then [Op(BEqual), OpTo(JumpTrue, yes), OpTo(Jump, no)]
    else []
  }

  /** `!=`: a jump to false on a zero difference for numbers and
      characters; for strings a sign test; for booleans `BEqual`. */
  function NotEqualTest(lt: Option<PrimitiveType>, rt: Option<PrimitiveType>, left: string, right: string,
                        yes: LabelName, no: LabelName): seq<Instr>
  {
    if (lt == Some(Integer) && rt == Some(Integer)) || lt == Some(Character) then
      [Op(Subtract), OpTo(JumpFalse, no), OpTo(Jump, yes)]
    else if lt == Some(Float) then [Op(FSubtract), OpTo(JumpFZero, no), OpTo(Jump, yes)]
    else if lt == Some(String) then
      if '"' in left || '"' in right then [Op(Subtract), OpTo(JumpPos, no), OpTo(Jump, yes)]
      else [Op(Subtract), OpTo(JumpNeg, yes), OpTo(Jump, no)]
    else if lt == Some(Boolean) then [Op(BEqual), OpTo(JumpFalse, yes), OpTo(Jump, no)]
    else []
  }

  /** `<`: as `>` with a jump on negative. */
  function LesserTest(lt: Option<PrimitiveType>, rt: Option<PrimitiveType>, yes: LabelName, no: LabelName)
    : seq<Instr>
  {
    if (lt == Some(Integer) && rt == Some(Integer)) || lt == Some(Character) then
      [Op(Subtract), OpTo(JumpNeg, yes), OpTo(Jump, no)]
    else if lt == Some(Float) then [Op(FSubtract), OpTo(JumpFNeg, yes), OpTo(Jump, no)]
    else []
  }

  /** `<=`: as `<`, except that the jump to true is on zero when the
      operands were found equal at compile time. */
  function LesserOrEqualTest(lt: Option<PrimitiveType>, rt: Option<PrimitiveType>, same: bool,
                             yes: LabelName, no: LabelName): seq<Instr>
  {
    if lt == Some(Integer) && rt == Some(Integer) then
      [Op(Subtract), OpTo(if same then JumpFalse else JumpNeg, yes), OpTo(Jump, no)]
    else if lt == Some(Float) then
      [Op(FSubtract), OpTo(if same then JumpFZero else JumpFNeg, yes), OpTo(Jump, no)]
    else if lt == Some(Character) then
      [Op(Subtract), OpTo(if same then JumpFalse else JumpNeg, yes), OpTo(Jump, no)]
    else []
  }

  /** The instructions between the `sub` label and the trailer, by operator;
      empty where the source has no branch for the operand types. */
  function ComparisonTest(p: L.Punctuator, lt: Option<PrimitiveType>, rt: Option<PrimitiveType>,
                          left: string, right: string, same: bool, yes: LabelName, no: LabelName)
    : seq<Instr>
    requires !IsArithmetic(p)
  {
    match p
    case Greater => GreaterTest(lt, rt, yes, no)
    case GreaterOrEqual => GreaterOrEqualTest(lt, rt, same, yes, no)
    case Equal => EqualTest(lt, rt, left, right, yes, no)
    case NotEqual => NotEqualTest(lt, rt, left, right, yes, no)
    case Lesser => LesserTest(lt, rt, yes, no)
    case LesserOrEqual => LesserOrEqualTest(lt, rt, same, yes, no)
  }

  /** The common end of every comparison: push 1 on the true path, 0 on the
      false path, and meet at the join label. */
  function ComparisonTrailer(ls: CompareLabels): seq<Instr> {
    [OpTo(Label, ls.yes), Instr(PushI, IntOperand(1)), OpTo(Jump, ls.join),
     OpTo(Label, ls.no), Instr(PushI, IntOperand(0)), OpTo(Jump, ls.join),
     OpTo(Label, ls.join)]
  }

  /** The layout of a comparison's fragment: start label, first operand,
      arg2 label, second operand, sub label, the test, and the trailer. */
  function ComparisonLayout(ls: CompareLabels, arg1: seq<Instr>, arg2: seq<Instr>, test: seq<Instr>)
    : seq<Instr>
  {
    [OpTo(Label, ls.start)] + arg1 + [OpTo(Label, ls.arg2)] + arg2 + [OpTo(Label, ls.sub)] + test
    + ComparisonTrailer(ls)
  }

  /** visitComparisonOperatorNode: one value fragment laid out as start
      label, first operand, arg2 label, second operand, sub label, the test,
      and the trailer; its labels take the next number. */
  function ComparisonCode(n: Node, p: L.Punctuator, codes: seq<Code>, d: Decoration, ctr: nat)
    : (r: Option<(Code, nat)>)
    requires n.BinaryOperator? && !IsArithmetic(p) && |codes| == 2
    ensures r.Some? ==> r.value.1 == ctr + 1
  {
    var lt := TypeOf(d, n.left);
    var ls := CompareLabelsNumbered(ctr + 1);
    match (ValueOf(codes[0], lt), ValueOf(codes[1], TypeOf(d, n.right)),
           SameLiteralValue(lt, n.left.tok.lexeme, n.right.tok.lexeme))
    case (Some(arg1), Some(arg2), Some(same)) =>
      Some((Code(GeneratesValue, ComparisonInstrs(n, p, d, ls, same, arg1.instrs, arg2.instrs)), ctr + 1))
    case _ => None
  }

  /** A comparison whose operands both yield values, in terms of those values. */
  lemma {:induction false} ComparisonCodeOfValues(n: Node, p: L.Punctuator, codes: seq<Code>, d: Decoration, ctr: nat,
                               arg1: Code, arg2: Code)
    requires n.BinaryOperator? && !IsArithmetic(p) && |codes| == 2
    requires ValueOf(codes[0], TypeOf(d, n.left)) == Some(arg1)
    requires ValueOf(codes[1], TypeOf(d, n.right)) == Some(arg2)
    ensures var same := SameLiteralValue(TypeOf(d, n.left), n.left.tok.lexeme, n.right.tok.lexeme);
            && (ComparisonCode(n, p, codes, d, ctr).Some? <==> same.Some?)
            && (same.Some? ==>
                  ComparisonCode(n, p, codes, d, ctr).value
                  == (Code(GeneratesValue, ComparisonInstrs(n, p, d, CompareLabelsNumbered(ctr + 1), same.value,
                                                            arg1.instrs, arg2.instrs)), ctr + 1))
  {
  }

  /** A comparison's instructions, once its labels, its operands' value
      code and the same-value decision are known. */
  function ComparisonInstrs(n: Node, p: L.Punctuator, d: Decoration, ls: CompareLabels, same: bool,
                            arg1: seq<Instr>, arg2: seq<Instr>): seq<Instr>
    requires n.BinaryOperator? && !IsArithmetic(p)
  {
    var test := ComparisonTest(p, TypeOf(d, n.left), TypeOf(d, n.right), n.left.tok.lexeme, n.right.tok.lexeme,
                               same, ls.yes, ls.no);
    ComparisonLayout(ls, arg1, arg2, test)
  }

  /** visitLeave(BinaryOperatorNode): comparison or arithmetic by operator;
      an operator token that is no punctuator leaves the node without code. */
  function OperatorCode(n: Node, codes: seq<Code>, d: Decoration, ctr: nat): (r: Option<(Code, nat)>)
    requires n.BinaryOperator? && |codes| == 2
    ensures r.Some? ==> r.value.1 >= ctr
  {
    match n.tok.lextant
    case Some(Punctuation(p)) =>
      if IsArithmetic(p) then
        match ArithmeticCode(n, p, codes, d)
        case None => None
        case Some(c) => Some((c, ctr))
      else ComparisonCode(n, p, codes, d, ctr)
    case _ => None
  }

  // ---------------------------------------------------------------------
  // The traversal

  /** The leave step of each node kind, given its children's code. */
  function Leave(n: Node, codes: seq<Code>, d: Decoration, ctr: nat): (r: Option<(Code, nat)>)
    requires |codes| == |Children(n)|
    ensures r.Some? ==> r.value.1 >= ctr
  {
    match n
    case Program(_, _, _) => BlockLeave(codes, ctr)
    case MainBlock(_, _, _) => BlockLeave(codes, ctr)
    case PrintStatement(_, _, cs) =>
      (match PrintItems(cs, codes, d, ctr)
       case None => None
       case Some((body, c)) => Some((Code(GeneratesVoid, body), c)))
    case Declaration(_, _, _, _) =>
      (match AssignmentCode(n, codes, d) case None => None case Some(c) => Some((c, ctr)))
    case LetStatement(_, _, _, _) =>
      (match AssignmentCode(n, codes, d) case None => None case Some(c) => Some((c, ctr)))
    case BinaryOperator(_, _, _, _) => OperatorCode(n, codes, d, ctr)
    case UnaryOperator(_, _, _) => None
    case _ => LeafCode(n, d, ctr)
  }

  /** The code of a node: its children's code in order, then its leave step.
      The second component is the labeller's counter afterwards. */
  function Gen(n: Node, d: Decoration, ctr: nat): (r: Option<(Code, nat)>)
    ensures r.Some? ==> r.value.1 >= ctr
    decreases n, 1
  {
    match GenChildren(n, |Children(n)|, d, ctr)
    case None => None
    case Some((codes, c)) => Leave(n, codes, d, c)
  }

  /** The code of the first `i` children, each generated after the one before. */
  function GenChildren(n: Node, i: nat, d: Decoration, ctr: nat): (r: Option<(seq<Code>, nat)>)
    requires i <= |Children(n)|
    ensures r.Some? ==> |r.value.0| == i && r.value.1 >= ctr
    decreases n, 0, i
  {
    if i == 0 then Some(([], ctr))
    else
      match GenChildren(n, i - 1, d, ctr)
      case None => None
      case Some((codes, c)) => GenAppend(n, i - 1, codes, d, c)
  }

  /** The code of child `j` appended to that of the children before it. */
  function GenAppend(n: Node, j: nat, codes: seq<Code>, d: Decoration, ctr: nat): (r: Option<(seq<Code>, nat)>)
    requires j < |Children(n)|
    ensures r.Some? ==> |r.value.0| == |codes| + 1 && r.value.1 >= ctr
    decreases n, 0, j
  {
    match Gen(Children(n)[j], d, ctr)
    case None => None
    case Some((code, c)) => Some((codes + [code], c))
  }

  /** Once a child fails, the whole traversal of the node fails. */
  lemma {:induction false} GenChildrenFailureSticks(n: Node, i: nat, j: nat, d: Decoration, ctr: nat)
    requires i <= j <= |Children(n)|
    requires GenChildren(n, i, d, ctr).None?
    ensures GenChildren(n, j, d, ctr).None?
    decreases j
  {
    if j > i {
      GenChildrenFailureSticks(n, i, j - 1, d, ctr);
    }
  }

  lemma {:induction false} BlockCodeFailureSticks(codes: seq<Code>, i: nat)
    requires i <= |codes| && BlockCode(codes[..i]).None?
    ensures BlockCode(codes).None?
    decreases |codes|
  {
    if i < |codes| {
      var init := codes[..|codes| - 1];
      assert init[..i] == codes[..i];
      BlockCodeFailureSticks(init, i);
    } else {
      assert codes[..i] == codes;
    }
  }

  lemma {:induction false} PrintItemsFailureSticks(cs: seq<Node>, codes: seq<Code>, d: Decoration, ctr: nat, i: nat)
    requires |cs| == |codes| && i <= |cs|
    requires PrintItems(cs[..i], codes[..i], d, ctr).None?
    ensures PrintItems(cs, codes, d, ctr).None?
    decreases |cs|
  {
    if i < |cs| {
      var cinit, init := cs[..|cs| - 1], codes[..|codes| - 1];
      assert cinit[..i] == cs[..i] && init[..i] == codes[..i];
      PrintItemsFailureSticks(cinit, init, d, ctr, i);
    } else {
      assert cs[..i] == cs && codes[..i] == codes;
    }
  }

  /** makeASM: the runtime preamble, the global data block sized to the
      program scope, then the main program label, the program's code and a
      halt. */
  function AsmLayout(preamble: seq<Instr>, allocatedSize: nat, body: seq<Instr>): seq<Instr>
  {
    preamble
    + [OpTo(DLabel, Runtime(GlobalMemoryBlock)), Instr(DataZ, IntOperand(allocatedSize))]
    + [OpTo(Label, Runtime(MainProgramLabel))] + body + [Op(Halt)]
  }
}
