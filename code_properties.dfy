/** Properties of the code the generator emits: the coercion and store
    tables agree, statements and operators lay out their parts in source
    order, the divide-by-zero check fires exactly for a literal zero divisor,
    a comparison's labels share one fresh number and its test only jumps
    inside its own diamond, and the `>=`/`<=` shortcut reduces to the `==`,
    `>` and `<` tests. */
module CodeProperties {
  import opened Wrappers
  import L = Lexical
  import opened Types
  import opened Ast
  import opened Asm
  import opened NumberLexemes
  import opened CodeRules

  // ---------------------------------------------------------------------
  // Loads and stores

  /** A type has a store exactly when it has a load, and both move the
      same number of bytes, the type's width. */
  lemma StoreMatchesLoad(t: Option<PrimitiveType>)
    ensures StoreOpcode(t).Some? <==> LoadOpcode(t).Some?
    ensures StoreOpcode(t).Some? ==>
              AccessWidth(StoreOpcode(t).value) == AccessWidth(LoadOpcode(t).value) == Width(t.value)
  {
  }

  /** Coercion appends exactly one instruction to address code and none to
      value code, and never yields address or void code. */
  lemma CoercionAddsAtMostOneLoad(c: Code, t: Option<PrimitiveType>)
    requires ValueOf(c, t).Some?
    ensures ValueOf(c, t).value.kind == GeneratesValue
    ensures |ValueOf(c, t).value.instrs| == |c.instrs| + (if c.kind == GeneratesAddress then 1 else 0)
    ensures ValueOf(c, t).value.instrs[..|c.instrs|] == c.instrs
  {
    if c.kind == GeneratesAddress {
      assert ValueOf(c, t).value.instrs == c.instrs + [Op(LoadOpcode(t).value)];
    }
  }

  // ---------------------------------------------------------------------
  // Declarations and lets

  /** A declaration or let succeeds exactly when its target is address
      code, its initializer yields a value and its type has a store; its
      code is then the target's address, the initializer's value and the
      store of the statement's width, in that order. */
  lemma {:induction false} AssignmentOrder(n: Node, codes: seq<Code>, d: Decoration)
    requires (n.Declaration? || n.LetStatement?) && |codes| == 2
    ensures var v := ValueOf(codes[1], TypeOf(d, n.init));
            AssignmentCode(n, codes, d).Some?
            <==> codes[0].kind == GeneratesAddress && v.Some? && StoreOpcode(TypeOf(d, n)).Some?
    ensures AssignmentCode(n, codes, d).Some? ==>
              var c := AssignmentCode(n, codes, d).value;
              var target := codes[0].instrs;
              var value := ValueOf(codes[1], TypeOf(d, n.init)).value.instrs;
              && c.kind == GeneratesVoid
              && |c.instrs| == |target| + |value| + 1
              && c.instrs[..|target|] == target
              && c.instrs[|target|..|c.instrs| - 1] == value
              && c.instrs[|c.instrs| - 1].Instr?
              && AccessWidth(c.instrs[|c.instrs| - 1].opcode) == Width(TypeOf(d, n).value)
  {
    var r := AssignmentCode(n, codes, d);
    if r.Some? {
      var target := codes[0].instrs;
      var value := ValueOf(codes[1], TypeOf(d, n.init)).value.instrs;
      var store := StoreOpcode(TypeOf(d, n)).value;
      assert r.value.instrs == target + value + [Op(store)];
      assert r.value.instrs[|target|..|r.value.instrs| - 1] == value;
    }
  }

  // ---------------------------------------------------------------------
  // Arithmetic

  /** The operator an arithmetic opcode performs, whatever its operand type. */
  function OperatorOf(o: Opcode): Option<L.Punctuator> {
    match o
    case Add => Some(L.Add)
    case FAdd => Some(L.Add)
    case Subtract => Some(L.Subtract)
    case FSubtract => Some(L.Subtract)
    case Multiply => Some(L.Multiply)
    case FMultiply => Some(L.Multiply)
    case Divide => Some(L.Divide)
    case FDivide => Some(L.Divide)
    case _ => None
  }

  predicate IsFloatOpcode(o: Opcode) {
    o in {FAdd, FSubtract, FMultiply, FDivide}
  }

  /** The opcode table is invertible: the chosen opcode performs the
      source operator, and it is a float opcode exactly for float operands. */
  lemma OpcodeTableInverse(p: L.Punctuator, lt: Option<PrimitiveType>, rt: Option<PrimitiveType>)
    requires IsArithmetic(p) && OpcodeForOperator(p, lt, rt).Some?
    ensures OperatorOf(OpcodeForOperator(p, lt, rt).value) == Some(p)
    ensures IsFloatOpcode(OpcodeForOperator(p, lt, rt).value) <==> lt == Some(Float)
  {
  }

  /** Two operators with the same operand types never share an opcode. */
  lemma OpcodeTableInjective(p: L.Punctuator, q: L.Punctuator, lt: Option<PrimitiveType>, rt: Option<PrimitiveType>)
    requires IsArithmetic(p) && IsArithmetic(q) && p != q
    requires OpcodeForOperator(p, lt, rt).Some?
    ensures OpcodeForOperator(p, lt, rt) != OpcodeForOperator(q, lt, rt)
  {
    OpcodeTableInverse(p, lt, rt);
    if OpcodeForOperator(q, lt, rt).Some? {
      OpcodeTableInverse(q, lt, rt);
    }
  }

  /** An operator that semantic analysis typed with the standard signatures
      always finds an opcode: the signatures and the opcode table admit the
      same operand pairs. */
  lemma TypedArithmeticHasOpcode(p: L.Punctuator, lt: PrimitiveType, rt: PrimitiveType)
    requires IsArithmetic(p)
    ensures OpcodeForOperator(p, Some(lt), Some(rt)).Some?
            <==> Accepts(StandardSignatures(L.Punctuation(p)), [lt, rt])
  {
    ArithmeticSignatures(p, lt, rt);
  }

  /** The divide-by-zero check fires exactly for the `/` operator whose
      right operand's own lexeme reads as zero; a right operand that is not
      a number is read as -1 and never fires it. */
  lemma DivideCheckExactly(n: Node)
    requires n.BinaryOperator?
    ensures DividesByLiteralZero(n)
            <==> n.tok.lexeme == "/" && ParseNumber(n.right.tok.lexeme) == Some(0.0)
    ensures ParseNumber(n.right.tok.lexeme).None? ==> !DividesByLiteralZero(n)
  {
  }

  /** In lexeme terms: the right operand is a well-formed decimal numeral
      whose digits are all `0`. */
  lemma DivideCheckOnZeroNumerals(n: Node)
    requires n.BinaryOperator?
    ensures DividesByLiteralZero(n)
            <==> n.tok.lexeme == "/" && ParseNumber(n.right.tok.lexeme).Some?
                 && DigitsAllZero(n.right.tok.lexeme)
  {
    if ParseNumber(n.right.tok.lexeme).Some? {
      ZeroLexemes(n.right.tok.lexeme);
    }
  }

  /** The check reads only the right child's own token: a divisor that is
      itself an operator expression, or an identifier, never fires it,
      whatever value it has at run time. */
  lemma DivideCheckIgnoresNonLiterals(n: Node)
    requires n.BinaryOperator?
    requires (n.right.BinaryOperator? && n.right.tok.lextant.Some? && n.right.tok.lextant.value.Punctuation?
              && n.right.tok.lexeme == L.PunctuatorLexeme(n.right.tok.lextant.value.punctuator))
             || (n.right.Identifier? && |n.right.tok.lexeme| > 0
                 && ('a' <= n.right.tok.lexeme[0] <= 'z' || 'A' <= n.right.tok.lexeme[0] <= 'Z'
                     || n.right.tok.lexeme[0] == '_'))
    ensures !DividesByLiteralZero(n)
  {
    if n.right.Identifier? {
      IdentifierLexemesAreNotNumbers(n.right.tok.lexeme);
    } else {
      OperatorLexemesAreNotNumbers(n.right.tok.lextant.value.punctuator);
    }
  }

  /** An arithmetic node succeeds exactly when both operands yield values;
      its code is the left operand's value, the right operand's value, the
      jump to the divide-by-zero handler exactly when the check fires, and
      last the opcode, which is still there after the jump. */
  lemma {:induction false} ArithmeticOrder(n: Node, p: L.Punctuator, codes: seq<Code>, d: Decoration)
    requires n.BinaryOperator? && IsArithmetic(p) && |codes| == 2
    ensures ArithmeticCode(n, p, codes, d).Some?
            <==> ValueOf(codes[0], TypeOf(d, n.left)).Some? && ValueOf(codes[1], TypeOf(d, n.right)).Some?
    ensures ArithmeticCode(n, p, codes, d).Some? ==>
              var c := ArithmeticCode(n, p, codes, d).value;
              var a1 := ValueOf(codes[0], TypeOf(d, n.left)).value.instrs;
              var a2 := ValueOf(codes[1], TypeOf(d, n.right)).value.instrs;
              var k := |a1| + |a2|;
              && c.kind == GeneratesValue
              && |c.instrs| == k + (if DividesByLiteralZero(n) then 2 else 1)
              && c.instrs[..|a1|] == a1 && c.instrs[|a1|..k] == a2
              && (c.instrs[k] == DivideByZeroJump <==> DividesByLiteralZero(n))
              && c.instrs[|c.instrs| - 1]
                 == (match OpcodeForOperator(p, TypeOf(d, n.left), TypeOf(d, n.right))
                     case Some(o) => Op(o)
                     case None => NullOpcode)
  {
    var r := ArithmeticCode(n, p, codes, d);
    if r.Some? {
      var a1 := ValueOf(codes[0], TypeOf(d, n.left)).value.instrs;
      var a2 := ValueOf(codes[1], TypeOf(d, n.right)).value.instrs;
      var tail := ArithmeticTail(n, p, d);
      assert r.value.instrs == a1 + a2 + tail;
      assert r.value.instrs[|a1|..|a1| + |a2|] == a2;
      assert r.value.instrs[|a1| + |a2|] == tail[0];
    }
  }

  // ---------------------------------------------------------------------
  // Comparisons

  /** The six labels of one comparison are pairwise distinct, and no label
      of one comparison is a label of a comparison with another number. */
  lemma CompareLabelsDistinct(k: nat, k': nat)
    ensures var ls := CompareLabelsNumbered(k);
            var all := [ls.start, ls.arg2, ls.sub, ls.yes, ls.no, ls.join];
            forall i, j :: 0 <= i < j < 6 ==> all[i] != all[j]
    ensures k != k' ==>
              var ls, ls' := CompareLabelsNumbered(k), CompareLabelsNumbered(k');
              var all, all' := [ls.start, ls.arg2, ls.sub, ls.yes, ls.no, ls.join],
                               [ls'.start, ls'.arg2, ls'.sub, ls'.yes, ls'.no, ls'.join];
              forall i, j :: 0 <= i < 6 && 0 <= j < 6 ==> all[i] != all'[j]
  {
    var ls := CompareLabelsNumbered(k);
    var all := [ls.start, ls.arg2, ls.sub, ls.yes, ls.no, ls.join];
    var prefixes := ["-compare-arg1-", "-compare-arg2-", "-compare-sub-", "-compare-true-",
                     "-compare-false-", "-compare-join-"];
    forall i, j | 0 <= i < j < 6 ensures all[i] != all[j] {
      assert all[i].prefix == prefixes[i] && all[j].prefix == prefixes[j];
      assert prefixes[i][9..] != prefixes[j][9..];
    }
  }

  /** The layout of a comparison: start label, the first operand, the arg2
      label, the second operand, the sub label, the test, then the trailer
      that pushes 1 on the true path and 0 on the false path and joins. */
  lemma ComparisonLayoutParts(ls: CompareLabels, arg1: seq<Instr>, arg2: seq<Instr>, test: seq<Instr>)
    ensures var r := ComparisonLayout(ls, arg1, arg2, test);
            var a := 1 + |arg1|;
            var b := a + 1 + |arg2|;
            var t := b + 1;
            && |r| == t + |test| + 7
            && r[0] == OpTo(Label, ls.start) && r[1..a] == arg1
            && r[a] == OpTo(Label, ls.arg2) && r[a + 1..b] == arg2
            && r[b] == OpTo(Label, ls.sub) && r[t..t + |test|] == test
            && r[t + |test|..] == [OpTo(Label, ls.yes), Instr(PushI, IntOperand(1)), OpTo(Jump, ls.join),
                                   OpTo(Label, ls.no), Instr(PushI, IntOperand(0)), OpTo(Jump, ls.join),
                                   OpTo(Label, ls.join)]
  {
    var r := ComparisonLayout(ls, arg1, arg2, test);
    var a := 1 + |arg1|;
    var b := a + 1 + |arg2|;
    var t := b + 1;
    var head := [OpTo(Label, ls.start)] + arg1 + [OpTo(Label, ls.arg2)] + arg2 + [OpTo(Label, ls.sub)];
    assert r == head + test + ComparisonTrailer(ls);
    assert |head| == t;
    assert head[1..a] == arg1;
    assert head[a + 1..b] == arg2;
    assert r[..t] == head;
    assert r[t..t + |test|] == test;
    assert r[t + |test|..] == ComparisonTrailer(ls);
  }

  /** A comparison succeeds exactly when both operands yield values and the
      same-value decision can be made; its value code then takes the next
      label number and has the layout above, with the operator's test. */
  lemma {:induction false} ComparisonShape(n: Node, p: L.Punctuator, codes: seq<Code>, d: Decoration, ctr: nat)
    requires n.BinaryOperator? && !IsArithmetic(p) && |codes| == 2
    ensures var same := SameLiteralValue(TypeOf(d, n.left), n.left.tok.lexeme, n.right.tok.lexeme);
            ComparisonCode(n, p, codes, d, ctr).Some?
            <==> ValueOf(codes[0], TypeOf(d, n.left)).Some? && ValueOf(codes[1], TypeOf(d, n.right)).Some?
                 && same.Some?
    ensures ComparisonCode(n, p, codes, d, ctr).Some? ==>
              var ls := CompareLabelsNumbered(ctr + 1);
              var same := SameLiteralValue(TypeOf(d, n.left), n.left.tok.lexeme, n.right.tok.lexeme).value;
              var (c, k) := ComparisonCode(n, p, codes, d, ctr).value;
              && k == ctr + 1 && c.kind == GeneratesValue
              && c.instrs == ComparisonLayout(ls, ValueOf(codes[0], TypeOf(d, n.left)).value.instrs,
                                              ValueOf(codes[1], TypeOf(d, n.right)).value.instrs,
                                              ComparisonTest(p, TypeOf(d, n.left), TypeOf(d, n.right),
                                                             n.left.tok.lexeme, n.right.tok.lexeme,
                                                             same, ls.yes, ls.no))
  {
  }

  /** Every label an instruction of `s` names is `yes` or `no`. */
  predicate OnlyLabels(s: seq<Instr>, yes: LabelName, no: LabelName) {
    forall i :: 0 <= i < |s| && s[i].Instr? && s[i].operand.LabelOperand? ==>
      s[i].operand.name == yes || s[i].operand.name == no
  }

  /** The test only ever refers to the comparison's own true and false
      labels: control never leaves the diamond from inside the test. */
  lemma TestStaysInDiamond(p: L.Punctuator, lt: Option<PrimitiveType>, rt: Option<PrimitiveType>,
                           left: string, right: string, same: bool, yes: LabelName, no: LabelName)
    requires !IsArithmetic(p)
    ensures OnlyLabels(ComparisonTest(p, lt, rt, left, right, same, yes, no), yes, no)
  {
    match p
    case Greater => assert OnlyLabels(GreaterTest(lt, rt, yes, no), yes, no);
    case GreaterOrEqual => assert OnlyLabels(GreaterOrEqualTest(lt, rt, same, yes, no), yes, no);
    case Equal => assert OnlyLabels(EqualTest(lt, rt, left, right, yes, no), yes, no);
    case NotEqual => assert OnlyLabels(NotEqualTest(lt, rt, left, right, yes, no), yes, no);
    case Lesser => assert OnlyLabels(LesserTest(lt, rt, yes, no), yes, no);
    case LesserOrEqual => assert OnlyLabels(LesserOrEqualTest(lt, rt, same, yes, no), yes, no);
  }

  /** Integer pairs and character left operands compare by subtraction,
      float left operands by float subtraction; boolean equality and
      inequality use `BEqual`. */
  lemma TestComparesBySubtraction(p: L.Punctuator, lt: Option<PrimitiveType>, rt: Option<PrimitiveType>,
                                  left: string, right: string, same: bool, yes: LabelName, no: LabelName)
    requires !IsArithmetic(p)
    ensures var test := ComparisonTest(p, lt, rt, left, right, same, yes, no);
            && ((lt == rt == Some(Integer)) || lt == Some(Character) ==> |test| == 3 && test[0] == Op(Subtract))
            && (lt == Some(Float) ==> |test| == 3 && test[0] == Op(FSubtract))
            && (lt == Some(Boolean) && IsEquality(p) ==> |test| == 3 && test[0] == Op(BEqual))
  {
  }

  /** The pairs the source has no branch for get no test, only the trailer:
      ordering on strings and booleans, an integer left operand with a right
      operand of another type, and an untyped or erroneous left operand. */
  lemma NoBranchNoTest(p: L.Punctuator, lt: Option<PrimitiveType>, rt: Option<PrimitiveType>,
                       left: string, right: string, same: bool, yes: LabelName, no: LabelName)
    requires !IsArithmetic(p)
    requires ((lt == Some(String) || lt == Some(Boolean)) && !IsEquality(p))
             || (lt == Some(Integer) && rt != Some(Integer))
             || lt.None? || lt == Some(Error)
    ensures ComparisonTest(p, lt, rt, left, right, same, yes, no) == []
  {
  }

  /** `!=` is `==` with the true and false labels exchanged, for the types
      compared by subtraction. */
  lemma NotEqualMirrorsEqual(lt: Option<PrimitiveType>, rt: Option<PrimitiveType>, left: string, right: string,
                             yes: LabelName, no: LabelName)
    requires lt in {Some(Integer), Some(Float), Some(Character)}
    ensures NotEqualTest(lt, rt, left, right, yes, no) == EqualTest(lt, rt, left, right, no, yes)
  {
  }

  /** When the operands were found different, `>=` is the `>` test and
      `<=` the `<` test. */
  lemma OrEqualWhenDifferent(lt: Option<PrimitiveType>, rt: Option<PrimitiveType>, yes: LabelName, no: LabelName)
    ensures GreaterOrEqualTest(lt, rt, false, yes, no) == GreaterTest(lt, rt, yes, no)
    ensures LesserOrEqualTest(lt, rt, false, yes, no) == LesserTest(lt, rt, yes, no)
  {
  }

  /** When the operands were found equal, `>=` and `<=` are the `==` test
      for the types compared by subtraction. */
  lemma OrEqualWhenSame(lt: Option<PrimitiveType>, rt: Option<PrimitiveType>, left: string, right: string,
                        yes: LabelName, no: LabelName)
    requires lt in {Some(Integer), Some(Float), Some(Character)}
    ensures GreaterOrEqualTest(lt, rt, true, yes, no) == EqualTest(lt, rt, left, right, yes, no)
    ensures LesserOrEqualTest(lt, rt, true, yes, no) == EqualTest(lt, rt, left, right, yes, no)
  {
  }

  /** The same-value decision: for integer and float left operands both
      lexemes must read as numbers, and the answer is whether they read as
      the same number; for a character left operand the first characters
      are compared; otherwise the answer is yes. */
  lemma SameValueDecision(lt: Option<PrimitiveType>, left: string, right: string)
    ensures lt == Some(Integer) || lt == Some(Float) ==>
              (SameLiteralValue(lt, left, right).Some? <==> ParseNumber(left).Some? && ParseNumber(right).Some?)
              && (SameLiteralValue(lt, left, right) == Some(true) <==>
                    ParseNumber(left).Some? && ParseNumber(left) == ParseNumber(right))
    ensures lt == Some(Character) ==>
              (SameLiteralValue(lt, left, right).Some? <==> |left| > 0 && |right| > 0)
    ensures lt !in {Some(Integer), Some(Float), Some(Character)} ==> SameLiteralValue(lt, left, right) == Some(true)
  {
  }

  /** An operand whose lexeme cannot be a number: an identifier starting
      with a letter or an underscore, or an operator expression whose token
      is the operator's own punctuation. */
  predicate NonNumericOperand(o: Node) {
    (o.Identifier? && |o.tok.lexeme| > 0
     && ('a' <= o.tok.lexeme[0] <= 'z' || 'A' <= o.tok.lexeme[0] <= 'Z' || o.tok.lexeme[0] == '_'))
    || (o.BinaryOperator? && o.tok.lextant.Some? && o.tok.lextant.value.Punctuation?
        && o.tok.lexeme == L.PunctuatorLexeme(o.tok.lextant.value.punctuator))
  }

  /** The same-value decision is made for every comparison, whatever its
      operator: a comparison with an integer or float left operand one of
      whose operands is an identifier or an operator expression yields no
      code at all. Java's parser also reads the identifiers `NaN` and
      `Infinity` as numbers; those forms are not part of this model's
      number syntax, so they are outside this lemma. */
  lemma {:induction false} NonLiteralNumericComparisonFails(n: Node, p: L.Punctuator, codes: seq<Code>, d: Decoration, ctr: nat)
    requires n.BinaryOperator? && !IsArithmetic(p) && |codes| == 2
    requires TypeOf(d, n.left) == Some(Integer) || TypeOf(d, n.left) == Some(Float)
    requires NonNumericOperand(n.left) || NonNumericOperand(n.right)
    ensures ComparisonCode(n, p, codes, d, ctr).None?
  {
    var o := if NonNumericOperand(n.left) then n.left else n.right;
    if o.Identifier? {
      IdentifierLexemesAreNotNumbers(o.tok.lexeme);
    } else {
      OperatorLexemesAreNotNumbers(o.tok.lextant.value.punctuator);
    }
  }

  // ---------------------------------------------------------------------
  // Print formats

  /** The printable type whose values a runtime format string prints;
      `None` for every other runtime symbol. */
  function FormatType(f: RuntimeSymbol): Option<PrimitiveType> {
    match f
    case IntegerPrintFormat => Some(Integer)
    case BooleanPrintFormat => Some(Boolean)
    case FloatPrintFormat => Some(Float)
    case CharacterPrintFormat => Some(Character)
    case StringPrintFormat => Some(String)
    case _ => None
  }

  /** Each printable type prints with its own format: `printFormat` gives a
      type the format `f` exactly when `f` is the format of that type, so
      two types never share a format, and no type prints with the newline
      or separator format or any other runtime symbol. */
  lemma PrintFormatPerType(t: PrimitiveType, f: RuntimeSymbol)
    ensures PrintFormat(Some(t)) == Some(f) <==> t != Error && FormatType(f) == Some(t)
    ensures FormatType(NewlinePrintFormat) == FormatType(SeparatorPrintFormat) == None
  {
  }

  /** Two types with the same format are the same type. */
  lemma PrintFormatInjective(t: PrimitiveType, t': PrimitiveType)
    requires PrintFormat(Some(t)).Some? && PrintFormat(Some(t)) == PrintFormat(Some(t'))
    ensures t == t'
  {
    PrintFormatPerType(t, PrintFormat(Some(t)).value);
    PrintFormatPerType(t', PrintFormat(Some(t)).value);
  }

  // ---------------------------------------------------------------------
  // Leaves

  /** What each leaf emits: a boolean pushes 1 exactly when its token is the
      `true` keyword and 0 otherwise; an integer or character constant
      pushes its value and a float constant its lexeme; a string constant
      places its text under a data label numbered one past the counter and
      pushes that label's address; an identifier yields its binding's
      address code when it is bound and nothing otherwise; a newline or a
      separator prints its own format; an error node yields nothing. Only
      the string constant moves the counter. */
  lemma LeafShape(n: Node, d: Decoration, ctr: nat)
    requires IsLeaf(n)
    ensures n.BooleanConstant? ==>
              LeafCode(n, d, ctr)
              == Some((Code(GeneratesValue,
                            [Instr(PushI, IntOperand(if L.IsLextant(n.tok, {L.Keyword(L.True)}) then 1 else 0))]), ctr))
    ensures n.IntegerConstant? ==> LeafCode(n, d, ctr) == Some((Code(GeneratesValue, [Instr(PushI, IntOperand(n.intValue))]), ctr))
    ensures n.CharacterConstant? ==>
              LeafCode(n, d, ctr) == Some((Code(GeneratesValue, [Instr(PushI, IntOperand(n.charValue as int))]), ctr))
    ensures n.FloatConstant? ==>
              LeafCode(n, d, ctr) == Some((Code(GeneratesValue, [Instr(PushF, FloatOperand(n.tok.lexeme))]), ctr))
    ensures n.StringConstant? ==>
              LeafCode(n, d, ctr).Some? && LeafCode(n, d, ctr).value.1 == ctr + 1
              && var s := LeafCode(n, d, ctr).value.0.instrs;
                 var l := s[0].operand.name;
                 && |s| == 3 && s[0] == OpTo(DLabel, l) && l == Generated(StringLabelPrefix, ctr + 1, "")
                 && s[1] == Instr(DataS, StringOperand(n.stringValue)) && s[2] == OpTo(PushD, l)
                 && LeafCode(n, d, ctr).value.0.kind == GeneratesValue
    ensures n.Identifier? ==>
              (LeafCode(n, d, ctr).Some? <==> n.id in d.bindings)
              && (n.id in d.bindings ==>
                    LeafCode(n, d, ctr) == Some((Code(GeneratesAddress, d.generateAddress(d.bindings[n.id])), ctr)))
    ensures n.Newline? || n.Separator? ==>
              var format := if n.Newline? then NewlinePrintFormat else SeparatorPrintFormat;
              LeafCode(n, d, ctr) == Some((Code(GeneratesVoid, [OpTo(PushD, Runtime(format)), Op(Printf)]), ctr))
    ensures n.ErrorNode? ==> LeafCode(n, d, ctr).None?
  {
  }

  // ---------------------------------------------------------------------
  // Print statements

  /** The boolean-to-string diamond jumps only to the two labels it places
      itself; these differ, and neither is a label of the diamond of any
      other number. */
  lemma BooleanToStringLabels(k: nat, k': nat)
    ensures var s := BooleanToString(k);
            && s[3] == OpTo(Label, s[0].operand.name) && s[5] == OpTo(Label, s[2].operand.name)
            && s[0].operand != s[2].operand
    ensures k != k' ==>
              var s, s' := BooleanToString(k), BooleanToString(k');
              && s[0].operand != s'[0].operand && s[0].operand != s'[2].operand
              && s[2].operand != s'[0].operand && s[2].operand != s'[2].operand
  {
    assert PrintTruePrefix[15] != PrintJoinPrefix[15];
  }

  /** One printed child: newline and separator code exactly as it is;
      otherwise the child's value, the true/false diamond exactly for a
      boolean (which takes the next label number), then its type's format
      and a printf. */
  lemma PrintItemShape(child: Node, c: Code, d: Decoration, ctr: nat)
    ensures child.Newline? || child.Separator? ==>
              (PrintItem(child, c, d, ctr).Some? <==> c.kind == GeneratesVoid)
              && (PrintItem(child, c, d, ctr).Some? ==> PrintItem(child, c, d, ctr).value == (c.instrs, ctr))
    ensures !child.Newline? && !child.Separator? ==>
              var t := TypeOf(d, child);
              (PrintItem(child, c, d, ctr).Some? <==> PrintFormat(t).Some? && ValueOf(c, t).Some?)
              && (PrintItem(child, c, d, ctr).Some? ==>
                    var (item, k) := PrintItem(child, c, d, ctr).value;
                    var v := ValueOf(c, t).value.instrs;
                    var m := if t == Some(Boolean) then 6 else 0;
                    && |item| == |v| + m + 2
                    && item[..|v|] == v
                    && (t == Some(Boolean) ==> item[|v|..|v| + 6] == BooleanToString(ctr + 1) && k == ctr + 1)
                    && (t != Some(Boolean) ==> k == ctr)
                    && item[|v| + m..] == [OpTo(PushD, Runtime(PrintFormat(t).value)), Op(Printf)])
  {
    if !child.Newline? && !child.Separator? && PrintItem(child, c, d, ctr).Some? {
      var t := TypeOf(d, child);
      var v := ValueOf(c, t).value.instrs;
      var convert := if t == Some(Boolean) then BooleanToString(ctr + 1) else [];
      var item := PrintItem(child, c, d, ctr).value.0;
      assert item == v + convert + [OpTo(PushD, Runtime(PrintFormat(t).value)), Op(Printf)];
      assert item[..|v|] == v;
      assert item[|v|..|v| + |convert|] == convert;
    }
  }

  // ---------------------------------------------------------------------
  // Whole nodes

  /** What a successfully generated node leaves on the stack: statements,
      blocks and the program leave nothing, an identifier its address,
      and every other expression its value. */
  lemma GeneratedKind(n: Node, d: Decoration, ctr: nat)
    requires Gen(n, d, ctr).Some?
    ensures (|| n.Program? || n.MainBlock? || n.PrintStatement? || n.Declaration? || n.LetStatement?
             || n.Newline? || n.Separator?)
            ==> Gen(n, d, ctr).value.0.kind == GeneratesVoid
    ensures n.Identifier? ==> Gen(n, d, ctr).value.0.kind == GeneratesAddress
    ensures (|| n.BinaryOperator? || n.BooleanConstant? || n.IntegerConstant? || n.FloatConstant?
             || n.CharacterConstant? || n.StringConstant?)
            ==> Gen(n, d, ctr).value.0.kind == GeneratesValue
  {
    var (codes, c) := GenChildren(n, |Children(n)|, d, ctr).value;
    var r := Leave(n, codes, d, c);
    assert r.Some?;
    if n.BinaryOperator? {
      var p := n.tok.lextant.value.punctuator;
      if IsArithmetic(p) {
        assert r.value.0 == ArithmeticCode(n, p, codes, d).value;
      }
    }
  }

  /** The unary operators and the error node never yield code. */
  lemma NoCodeForUnaryOrError(n: Node, d: Decoration, ctr: nat)
    requires n.UnaryOperator? || n.ErrorNode?
    ensures Gen(n, d, ctr).None?
  {
    if n.UnaryOperator? {
      match GenChildren(n, |Children(n)|, d, ctr)
      case None =>
      case Some((codes, c)) => assert Leave(n, codes, d, c).None?;
    }
  }

  /** The children's instructions one after another, first child first. */
  function Concat(codes: seq<Code>): seq<Instr> {
    if codes == [] then [] else codes[0].instrs + Concat(codes[1..])
  }

  predicate AllVoid(codes: seq<Code>) {
    forall j :: 0 <= j < |codes| ==> codes[j].kind == GeneratesVoid
  }

  lemma {:induction false} ConcatSnoc(codes: seq<Code>, c: Code)
    ensures Concat(codes + [c]) == Concat(codes) + c.instrs
    decreases |codes|
  {
    if codes == [] {
      assert codes + [c] == [c];
    } else {
      assert (codes + [c])[1..] == codes[1..] + [c];
      ConcatSnoc(codes[1..], c);
    }
  }

  /** A program or main block accepts only void code from its children, and
      its code is theirs concatenated in order. */
  lemma {:induction false} BlockConcatenates(codes: seq<Code>)
    ensures BlockCode(codes).Some? <==> AllVoid(codes)
    ensures BlockCode(codes).Some? ==> BlockCode(codes).value == Concat(codes)
    decreases |codes|
  {
    if codes != [] {
      var init, last := codes[..|codes| - 1], codes[|codes| - 1];
      BlockConcatenates(init);
      assert init + [last] == codes;
      ConcatSnoc(init, last);
      assert AllVoid(codes) <==> AllVoid(init) && last.kind == GeneratesVoid by {
        if AllVoid(init) && last.kind == GeneratesVoid {
          forall j | 0 <= j < |codes| ensures codes[j].kind == GeneratesVoid {
            if j < |init| { assert codes[j] == init[j]; }
          }
        }
        if AllVoid(codes) {
          forall j | 0 <= j < |init| ensures init[j].kind == GeneratesVoid {
            assert init[j] == codes[j];
          }
        }
      }
    }
  }

  /** The whole program's layout: the runtime preamble untouched, the global
      data block of the scope's size, the main label, the program's code and
      a final halt, each at its own position. */
  lemma AsmLayoutParts(preamble: seq<Instr>, allocatedSize: nat, body: seq<Instr>)
    ensures var r := AsmLayout(preamble, allocatedSize, body);
            var k := |preamble|;
            && |r| == k + |body| + 4
            && r[..k] == preamble
            && r[k] == OpTo(DLabel, Runtime(GlobalMemoryBlock))
            && r[k + 1] == Instr(DataZ, IntOperand(allocatedSize))
            && r[k + 2] == OpTo(Label, Runtime(MainProgramLabel))
            && r[k + 3..|r| - 1] == body
            && r[|r| - 1] == Op(Halt)
  {
    var r := AsmLayout(preamble, allocatedSize, body);
    var k := |preamble|;
    assert r == preamble + ([OpTo(DLabel, Runtime(GlobalMemoryBlock)), Instr(DataZ, IntOperand(allocatedSize)),
                             OpTo(Label, Runtime(MainProgramLabel))] + body + [Op(Halt)]);
  }
}
