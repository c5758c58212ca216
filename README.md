# Grouse compiler back end in Dafny

This project models the two tree passes of the Grouse compiler back end.

**Semantic analysis** (`SemanticAnalysisVisitor`) gives every expression node of the parse tree a primitive type:
- a literal gets its own type;
- a declaration or `let` gives itself and its target identifier the initializer's type, and creates a binding in the program scope;
- an identifier in use position takes the type of the binding it resolves to;
- an operator node gets the result type of the matching signature, or one logged diagnostic and the type `ERROR`.

**Code generation** (`ASMCodeGenerator`) walks the typed tree bottom-up. It keeps one code fragment per node in a map. Each fragment is tagged as generating an address, a value or nothing (void). The generator covers:
- the load and store opcode for each type;
- the coercion of address code into value code;
- the arithmetic opcode for each pair of operand types;
- the jump to the divide-by-zero handler when the divisor is a literal zero;
- the six-label comparison diamond;
- the diamond that turns a printed boolean into the string "true" or "false";
- the final layout: runtime preamble, global data block, `main` label, program code, `Halt`.

The model has two layers in each pass:
- **Specification functions over values.**
  - `SemanticRules.Analyze` maps a node and the facts recorded so far to the new facts: node types, identifier bindings, the scope table, the created bindings, and the logged diagnostics.
  - `CodeRules.Gen` maps a node, its decoration and the label counter to the node's code and the new counter, or `None`.
- **Imperative classes** that follow the Java code step by step.
  - `SemanticAnalysisVisitor.Analyzer` updates node attributes and a `SymbolTable.Scope` object.
  - `AsmCodeGenerator.CodeVisitor` keeps a `codeMap` from node identity to `Asm.Fragment` objects. It appends to fragments in place and draws labels from an `Asm.Labeller` object.
  - Each method is proved to leave exactly the state the specification function describes.
  - `AsmCodeGenerator.Generator.MakeAsm` is proved to produce `CodeRules.AsmLayout` of the program's code.
  - Every label the generated code places is placed once and carries a number the labeller handed out during that generation (`LabelProperties.GeneratedLabelsUnique`).

Parse-tree nodes are a datatype (`Ast.Node`). Each node carries an `id` that stands for Java object identity, and its token. The visitors' double dispatch becomes a `match`. A Java `assert` that fails, a null dereference and a thrown exception are all modelled as failure: `None`, a `false` result, or a `null` fragment.

Behaviours of the source that the model keeps as written:
- `getAndRemoveCode` removes nothing from the map. `codeMap.remove(result)` is keyed by the fragment, and the map is keyed by node.
- The divide-by-zero check appends the jump and then still appends the divide opcode. The divisor's lexeme is read as a number, and a lexeme that is not a number reads as -1.
- For every comparison whose left operand is an integer or a float, both operand lexemes are parsed as numbers (before `>=` and `<=` are decided).
  - An identifier operand (a lexeme starting with a letter or an underscore) or an operator operand on either side therefore makes generation fail (`CodeProperties.NonLiteralNumericComparisonFails`).
- A `let` target is resolved as a reference before the new binding is created. Only the first child of a declaration counts as "being declared".
- The comparison tests follow the source's branches exactly:
  - string `==` and `!=` decide by the lexemes;
  - a type pair with no branch emits only the diamond trailer.

## Model

| member | source | states |
|---|---|---|
| BooleanConstantNode.FromToken | grouse/src/parseTree/nodeTypes/BooleanConstantNode.java:10-13 | construction from a token requires the `true` or `false` keyword and yields a boolean leaf carrying that token |
| BooleanConstantNode.FromNode | grouse/src/parseTree/nodeTypes/BooleanConstantNode.java:15-17 | the copying constructor keeps the other node's token and checks nothing |
| BooleanConstantNode.GetValue | grouse/src/parseTree/nodeTypes/BooleanConstantNode.java:23-25 | the value is true exactly when the token is the `true` keyword |
| BooleanConstantNode.FalseExactlyForFalseKeyword | grouse/src/parseTree/nodeTypes/BooleanConstantNode.java:10-25 | for a node built from a token, the value is false exactly when the token is `false`, and true exactly when it is `true` |
| BooleanConstantNode.CopiedNodeWithOtherToken | grouse/src/parseTree/nodeTypes/BooleanConstantNode.java:15-25 | a copied node whose token is no boolean keyword reads as false without being the `false` keyword |
| Ast.Children | grouse/src/parseTree/nodeTypes/BooleanConstantNode.java:35-37 | a leaf (the boolean constant among them) has no children to traverse; statements and operators traverse target or left operand first |
| Types.Match | grouse/src/semanticAnalyzer/SemanticAnalysisVisitor.java:123-132 | a signature is found exactly when one of the operator's signatures has exactly the operand types; it is the first such signature of the list |
| Types.ErrorNeverAccepted | grouse/src/semanticAnalyzer/SemanticAnalysisVisitor.java:132-137 | no standard signature accepts an operand list containing `ERROR` |
| Types.ArithmeticSignatures | grouse/src/semanticAnalyzer/SemanticAnalysisVisitor.java:113-138 | an arithmetic operator accepts exactly two integers or two floats, and yields that type |
| Types.ComparisonSignatures | grouse/src/semanticAnalyzer/SemanticAnalysisVisitor.java:113-138 | a comparison accepts two equal integer, float or character types (equality also strings and booleans), and yields boolean |
| SymbolTable.StorageDisjoint | grouse/src/semanticAnalyzer/SemanticAnalysisVisitor.java:236-240 | bindings created one after another occupy disjoint storage inside the scope's allocated size |
| SymbolTable.PackedAppend | grouse/src/semanticAnalyzer/SemanticAnalysisVisitor.java:236-240 | a binding placed at the current size keeps offsets packed and grows the size by its type's width |
| SymbolTable.Scope.CreateProgramScope | grouse/src/semanticAnalyzer/SemanticAnalysisVisitor.java:63-66 | a new program scope is open, empty and of size zero |
| SymbolTable.Scope.CreateBinding | grouse/src/semanticAnalyzer/SemanticAnalysisVisitor.java:236-240 | createBinding records name, type and the next free offset, maps the name to it, grows the size by the width, and keeps the scope invariant |
| SymbolTable.Scope.FindBinding | grouse/src/semanticAnalyzer/SemanticAnalysisVisitor.java:220-227 | a lookup finds a binding exactly when the name is in the table, and returns that created binding under its own name |
| SymbolTable.Scope.Leave | grouse/src/semanticAnalyzer/SemanticAnalysisVisitor.java:75-77 | leaving closes the scope and keeps its bindings and size |
| Asm.Labeller.NewLabel | grouse/src/asmCodeGenerator/ASMCodeGenerator.java:369 | newLabel advances the counter and names the label with the new number |
| Asm.Labeller.NewLabelSameNumber | grouse/src/asmCodeGenerator/ASMCodeGenerator.java:370-374 | newLabelSameNumber reuses the current number under another prefix |
| Asm.Fragment.constructor | grouse/src/asmCodeGenerator/ASMCodeGenerator.java:105-118 | a new fragment has the requested tag and no instructions |
| Asm.Fragment.Add | grouse/src/asmCodeGenerator/ASMCodeGenerator.java:219-223 | add appends exactly one instruction and keeps the tag |
| Asm.Fragment.AddAll | grouse/src/asmCodeGenerator/ASMCodeGenerator.java:662-667 | a run of instructions emitted by a collaborator is appended as it is |
| Asm.Fragment.Append | grouse/src/asmCodeGenerator/ASMCodeGenerator.java:57-66 | append copies the other fragment's instructions after this one's and keeps the tag |
| Asm.Fragment.MarkAsValue | grouse/src/asmCodeGenerator/ASMCodeGenerator.java:176 | markAsValue retags as value and keeps the instructions |
| NumberLexemes.NumeralRoundTrip | grouse/src/asmCodeGenerator/ASMCodeGenerator.java:611-615 | the decimal numeral of any natural number (and its negation) parses back to that number |
| NumberLexemes.ZeroLexemes | grouse/src/asmCodeGenerator/ASMCodeGenerator.java:621 | a numeric lexeme denotes zero exactly when all its digits are `0` |
| NumberLexemes.OperatorLexemesAreNotNumbers | grouse/src/asmCodeGenerator/ASMCodeGenerator.java:611-615 | an operator's lexeme never parses as a number |
| NumberLexemes.IdentifierLexemesAreNotNumbers | grouse/src/asmCodeGenerator/ASMCodeGenerator.java:611-615 | a lexeme starting with a letter or underscore never parses as a number, outside the `NaN`/`Infinity` forms that the modelled number syntax does not admit |
| CodeRules.LoadOpcode | grouse/src/asmCodeGenerator/ASMCodeGenerator.java:161-177 | a load exists exactly for the five printable types; it is LoadI, LoadC or LoadF and moves the type's width |
| CodeRules.StoreOpcode | grouse/src/asmCodeGenerator/ASMCodeGenerator.java:299-317 | a store exists exactly for the five printable types; it is StoreI, StoreC or StoreF and moves the type's width |
| CodeRules.PrintFormat | grouse/src/asmCodeGenerator/ASMCodeGenerator.java:256-269 | a print format exists exactly for the five printable types; which format each type gets is `PrintFormatPerType` |
| CodeProperties.PrintFormatPerType | grouse/src/asmCodeGenerator/ASMCodeGenerator.java:256-269 | a type prints with format `f` exactly when `f` is that type's own format (`FormatType`, the inverse table); newline and separator formats belong to no type |
| CodeProperties.PrintFormatInjective | grouse/src/asmCodeGenerator/ASMCodeGenerator.java:256-269 | two types with the same print format are the same type |
| CodeRules.OpcodeForOperator | grouse/src/asmCodeGenerator/ASMCodeGenerator.java:630-653 | an opcode exists exactly when both operands are integers or both are floats |
| CodeRules.ValueOf | grouse/src/asmCodeGenerator/ASMCodeGenerator.java:132-177 | void code is rejected, value code is kept, address code gets the type's load appended and becomes value code |
| CodeRules.LeafCode | grouse/src/asmCodeGenerator/ASMCodeGenerator.java:655-697 | among the leaves only a string constant takes a label number; the instructions of each leaf are `LeafShape` |
| CodeProperties.LeafShape | grouse/src/asmCodeGenerator/ASMCodeGenerator.java:655-697 | a boolean pushes 1 exactly when its token is `true` and 0 otherwise; integer and character constants push their value, a float its lexeme; a string places its text under a data label numbered one past the counter and pushes that label; an identifier gives its binding's address code exactly when bound; newline and separator print their own format |
| CodeRules.BlockLeave | grouse/src/asmCodeGenerator/ASMCodeGenerator.java:187-201 | a block takes no label numbers |
| CodeRules.PrintItem | grouse/src/asmCodeGenerator/ASMCodeGenerator.java:231-254 | a printed child takes a label number exactly when it is a boolean |
| CodeRules.PrintItems | grouse/src/asmCodeGenerator/ASMCodeGenerator.java:205-217 | the print loop never moves the label counter back |
| CodeRules.PrintItemsStep | grouse/src/asmCodeGenerator/ASMCodeGenerator.java:208-216 | one pass of the print loop extends the code by that child's item |
| CodeRules.ComparisonCode | grouse/src/asmCodeGenerator/ASMCodeGenerator.java:369-374 | a comparison uses exactly one new label number |
| CodeRules.OperatorCode | grouse/src/asmCodeGenerator/ASMCodeGenerator.java:322-330 | an operator node never moves the label counter back |
| CodeRules.Leave | grouse/src/asmCodeGenerator/ASMCodeGenerator.java:181-183 | a node's leave step never moves the label counter back |
| CodeRules.Gen | grouse/src/parseTree/nodeTypes/BlockNode.java:25-29 | generating a subtree never moves the label counter back |
| CodeRules.GenChildren | grouse/src/parseTree/nodeTypes/BlockNode.java:25-29 | the first i children yield exactly i fragments |
| CodeRules.GenChildrenFailureSticks | grouse/src/asmCodeGenerator/ASMCodeGenerator.java:189-192 | once a child fails, visiting more children cannot recover |
| CodeRules.BlockCodeFailureSticks | grouse/src/asmCodeGenerator/ASMCodeGenerator.java:187-201 | a non-void child anywhere makes the block fail |
| CodeRules.PrintItemsFailureSticks | grouse/src/asmCodeGenerator/ASMCodeGenerator.java:205-217 | a failing printed child anywhere makes the print statement fail |
| CodeProperties.StoreMatchesLoad | grouse/src/asmCodeGenerator/ASMCodeGenerator.java:299-317 | store and load exist for the same types and move the same width |
| CodeProperties.CoercionAddsAtMostOneLoad | grouse/src/asmCodeGenerator/ASMCodeGenerator.java:153-177 | coerced code is value code with the original instructions as prefix, one longer exactly for address code |
| CodeProperties.AssignmentOrder | grouse/src/asmCodeGenerator/ASMCodeGenerator.java:271-297 | a declaration or let succeeds exactly for address target, value initializer and storable type; the code is target, then value, then one store of the type's width |
| CodeProperties.OpcodeTableInverse | grouse/src/asmCodeGenerator/ASMCodeGenerator.java:630-653 | the chosen opcode performs the source operator, and is a float opcode exactly for float operands |
| CodeProperties.OpcodeTableInjective | grouse/src/asmCodeGenerator/ASMCodeGenerator.java:630-653 | different operators get different opcodes |
| CodeProperties.TypedArithmeticHasOpcode | grouse/src/asmCodeGenerator/ASMCodeGenerator.java:630-653 | an opcode exists exactly for the operand types the analysis accepts |
| CodeProperties.DivideCheckExactly | grouse/src/asmCodeGenerator/ASMCodeGenerator.java:609-623 | the check fires exactly for lexeme `/` over a right lexeme reading as zero; a non-number never fires it |
| CodeProperties.DivideCheckOnZeroNumerals | grouse/src/asmCodeGenerator/ASMCodeGenerator.java:609-623 | the check fires exactly for `/` over a numeric lexeme whose digits are all `0` |
| CodeProperties.DivideCheckIgnoresNonLiterals | grouse/src/asmCodeGenerator/ASMCodeGenerator.java:609-623 | dividing by an identifier or by an operator expression never fires the check |
| CodeProperties.ArithmeticOrder | grouse/src/asmCodeGenerator/ASMCodeGenerator.java:602-628 | arithmetic succeeds exactly when both operands give value code; the code is left, right, the jump exactly when the check fires, then the opcode (or a null entry) |
| CodeProperties.CompareLabelsDistinct | grouse/src/asmCodeGenerator/ASMCodeGenerator.java:369-374 | a comparison's six labels are pairwise distinct, and distinct from another comparison's |
| CodeProperties.ComparisonLayoutParts | grouse/src/asmCodeGenerator/ASMCodeGenerator.java:391-399 | start label, first operand, arg2 label, second operand, sub label, test, then the seven-instruction trailer, each at its position |
| CodeProperties.ComparisonShape | grouse/src/asmCodeGenerator/ASMCodeGenerator.java:366-600 | a comparison succeeds exactly when both operands give value code and the same-value decision is defined; it is a value fragment with the layout and the next label number |
| CodeProperties.TestStaysInDiamond | grouse/src/asmCodeGenerator/ASMCodeGenerator.java:401-589 | every jump in a test targets the comparison's true or false label |
| CodeProperties.TestComparesBySubtraction | grouse/src/asmCodeGenerator/ASMCodeGenerator.java:401-551 | integer and character tests start with Subtract, float tests with FSubtract, boolean equality with BEqual, three instructions each |
| CodeProperties.NoBranchNoTest | grouse/src/asmCodeGenerator/ASMCodeGenerator.java:401-589 | a type and operator pair without a branch emits no test |
| CodeProperties.NotEqualMirrorsEqual | grouse/src/asmCodeGenerator/ASMCodeGenerator.java:454-511 | for numbers and characters `!=` is `==` with the true and false labels swapped |
| CodeProperties.OrEqualWhenDifferent | grouse/src/asmCodeGenerator/ASMCodeGenerator.java:417-588 | `>=` and `<=` on operands found different are `>` and `<` |
| CodeProperties.OrEqualWhenSame | grouse/src/asmCodeGenerator/ASMCodeGenerator.java:417-588 | `>=` and `<=` on operands found equal are the `==` test |
| CodeProperties.SameValueDecision | grouse/src/asmCodeGenerator/ASMCodeGenerator.java:377-389 | numeric operands are decided by their parsed values and fail if either is no number; characters by their first characters; other types count as equal |
| CodeProperties.NonLiteralNumericComparisonFails | grouse/src/asmCodeGenerator/ASMCodeGenerator.java:382-385 | an integer or float comparison one of whose operands is an identifier starting with a letter or an underscore, or an operator expression, fails, outside the `NaN`/`Infinity` forms that the modelled number syntax does not admit |
| CodeProperties.BooleanToStringLabels | grouse/src/asmCodeGenerator/ASMCodeGenerator.java:245-253 | each print diamond jumps only to the true and join labels it places itself; these differ, and none of them is a label of the diamond of another number |
| CodeProperties.PrintItemShape | grouse/src/asmCodeGenerator/ASMCodeGenerator.java:205-254 | newline and separator code is copied when void; other children give value code, the six-instruction diamond only for booleans, then PushD of the type's format and Printf |
| CodeProperties.GeneratedKind | grouse/src/asmCodeGenerator/ASMCodeGenerator.java:187-697 | statements and blocks give void code, an identifier address code, literals and binary operators value code |
| CodeProperties.NoCodeForUnaryOrError | grouse/src/asmCodeGenerator/ASMCodeGenerator.java:181-183 | a unary operator or an error node has no code-generation rule and fails |
| CodeProperties.ConcatSnoc | grouse/src/asmCodeGenerator/ASMCodeGenerator.java:189-192 | concatenating one more child's code appends its instructions |
| CodeProperties.BlockConcatenates | grouse/src/asmCodeGenerator/ASMCodeGenerator.java:187-201 | a block succeeds exactly when every child gives void code, and then its code is the children's, in order |
| CodeProperties.AsmLayoutParts | grouse/src/asmCodeGenerator/ASMCodeGenerator.java:57-87 | the output is the preamble, DLabel global, DataZ of the scope's size, Label main, the program's code, and Halt last |
| AsmCodeGenerator.CodeVisitor.constructor | grouse/src/asmCodeGenerator/ASMCodeGenerator.java:99-101 | the visitor starts with an empty code map |
| AsmCodeGenerator.CodeVisitor.NewCode | grouse/src/asmCodeGenerator/ASMCodeGenerator.java:105-118 | `code` becomes a fresh empty fragment of the kind, entered in the map under the node |
| AsmCodeGenerator.CodeVisitor.GetAndRemoveCode | grouse/src/asmCodeGenerator/ASMCodeGenerator.java:122-126 | returns the node's fragment (null if none) and leaves the map as it was |
| AsmCodeGenerator.CodeVisitor.RemoveVoidCode | grouse/src/asmCodeGenerator/ASMCodeGenerator.java:145-149 | succeeds exactly for a void fragment, which it returns |
| AsmCodeGenerator.CodeVisitor.RemoveAddressCode | grouse/src/asmCodeGenerator/ASMCodeGenerator.java:139-143 | succeeds exactly for an address fragment, which it returns |
| AsmCodeGenerator.CodeVisitor.RemoveValueCode | grouse/src/asmCodeGenerator/ASMCodeGenerator.java:132-137 | coerces the node's own fragment in place to `ValueOf` of its old contents, failing where that is undefined |
| AsmCodeGenerator.CodeVisitor.MakeFragmentValueCode | grouse/src/asmCodeGenerator/ASMCodeGenerator.java:153-159 | the fragment's new contents are `ValueOf` of its old contents |
| AsmCodeGenerator.CodeVisitor.TurnAddressIntoValue | grouse/src/asmCodeGenerator/ASMCodeGenerator.java:161-177 | appends the type's load and retags as value; fails exactly when the type has no load |
| AsmCodeGenerator.CodeVisitor.Visit | grouse/src/parseTree/nodeTypes/BlockNode.java:25-29 | visiting a subtree succeeds exactly when `Gen` does; the node's fresh fragment and the counter are what `Gen` gives; entries outside the subtree are kept |
| AsmCodeGenerator.CodeVisitor.VisitChildren | grouse/src/parseTree/nodeTypes/BlockNode.java:27 | the children are visited in order exactly as `GenChildren` says, each into its own fresh fragment |
| AsmCodeGenerator.CodeVisitor.LeaveNode | grouse/src/asmCodeGenerator/ASMCodeGenerator.java:181-183 | the leave step of each node kind yields what `Leave` says; unhandled kinds fail |
| AsmCodeGenerator.CodeVisitor.VisitLeaf | grouse/src/asmCodeGenerator/ASMCodeGenerator.java:655-697 | a leaf's fragment and the counter are what `LeafCode` says |
| AsmCodeGenerator.CodeVisitor.LeaveBlock | grouse/src/asmCodeGenerator/ASMCodeGenerator.java:187-201 | the program and main-block loops yield what `Leave` says |
| AsmCodeGenerator.CodeVisitor.LeavePrint | grouse/src/asmCodeGenerator/ASMCodeGenerator.java:205-217 | the print statement yields what `Leave` says |
| AsmCodeGenerator.CodeVisitor.PrintChildren | grouse/src/asmCodeGenerator/ASMCodeGenerator.java:208-216 | the print loop leaves in `code` exactly `PrintItems` of the children, with its counter |
| AsmCodeGenerator.CodeVisitor.PrintChild | grouse/src/asmCodeGenerator/ASMCodeGenerator.java:209-215 | one child of the print loop appends its `PrintItem` |
| AsmCodeGenerator.CodeVisitor.AppendPrintCode | grouse/src/asmCodeGenerator/ASMCodeGenerator.java:231-238 | appends the child's value code, the boolean conversion and the print, as `PrintItem` says |
| AsmCodeGenerator.CodeVisitor.ConvertToStringIfBoolean | grouse/src/asmCodeGenerator/ASMCodeGenerator.java:240-254 | for a boolean appends the six-instruction diamond under the next label number; otherwise changes nothing |
| AsmCodeGenerator.CodeVisitor.LeaveAssignment | grouse/src/asmCodeGenerator/ASMCodeGenerator.java:271-297 | a declaration or let yields what `AssignmentCode` says in a fresh fragment |
| AsmCodeGenerator.CodeVisitor.LeaveOperator | grouse/src/asmCodeGenerator/ASMCodeGenerator.java:322-330 | a binary operator yields what `Leave` says |
| AsmCodeGenerator.CodeVisitor.LeaveArithmetic | grouse/src/asmCodeGenerator/ASMCodeGenerator.java:602-628 | arithmetic yields what `ArithmeticCode` says in a fresh fragment |
| AsmCodeGenerator.CodeVisitor.EmitArithmetic | grouse/src/asmCodeGenerator/ASMCodeGenerator.java:617-627 | appends both operands, the divide check and the opcode |
| AsmCodeGenerator.CodeVisitor.LeaveComparison | grouse/src/asmCodeGenerator/ASMCodeGenerator.java:366-600 | a comparison yields what `ComparisonCode` says in a fresh fragment, with the counter one higher |
| AsmCodeGenerator.CodeVisitor.BuildComparison | grouse/src/asmCodeGenerator/ASMCodeGenerator.java:369-390 | with both operand values in hand, the comparison takes exactly one label number and fails exactly when the same-value decision is undefined; otherwise the fresh fragment holds what `ComparisonCode` says |
| AsmCodeGenerator.CodeVisitor.NewComparisonCode | grouse/src/asmCodeGenerator/ASMCodeGenerator.java:391-600 | a fresh value fragment under the node holding the comparison's layout |
| AsmCodeGenerator.CodeVisitor.RemoveOperandValues | grouse/src/asmCodeGenerator/ASMCodeGenerator.java:367-368 | both operands are coerced to value code, or the step fails |
| AsmCodeGenerator.CodeVisitor.EmitComparison | grouse/src/asmCodeGenerator/ASMCodeGenerator.java:392-599 | appends exactly `ComparisonLayout` of the operands and the selected test |
| AsmCodeGenerator.CodeVisitor.NewCompareLabels | grouse/src/asmCodeGenerator/ASMCodeGenerator.java:369-374 | one newLabel and five newLabelSameNumber calls give the six labels of the new number |
| AsmCodeGenerator.CodeVisitor.EmitTrailer | grouse/src/asmCodeGenerator/ASMCodeGenerator.java:590-599 | appends the seven-instruction trailer |
| AsmCodeGenerator.CodeVisitor.EmitTest | grouse/src/asmCodeGenerator/ASMCodeGenerator.java:401-589 | appends the test the operator selects |
| AsmCodeGenerator.CodeVisitor.EmitGreaterTest | grouse/src/asmCodeGenerator/ASMCodeGenerator.java:401-416 | appends the `>` test for the operand types |
| AsmCodeGenerator.CodeVisitor.EmitGreaterOrEqualTest | grouse/src/asmCodeGenerator/ASMCodeGenerator.java:417-452 | appends the `>=` test for the operand types and the same-value decision |
| AsmCodeGenerator.CodeVisitor.EmitEqualTest | grouse/src/asmCodeGenerator/ASMCodeGenerator.java:454-493 | appends the `==` test for the operand types and lexemes |
| AsmCodeGenerator.CodeVisitor.EmitNotEqualTest | grouse/src/asmCodeGenerator/ASMCodeGenerator.java:495-534 | appends the `!=` test for the operand types and lexemes |
| AsmCodeGenerator.CodeVisitor.EmitLesserTest | grouse/src/asmCodeGenerator/ASMCodeGenerator.java:536-551 | appends the `<` test for the operand types |
| AsmCodeGenerator.CodeVisitor.EmitLesserOrEqualTest | grouse/src/asmCodeGenerator/ASMCodeGenerator.java:553-588 | appends the `<=` test for the operand types and the same-value decision |
| AsmCodeGenerator.CodeVisitor.RemoveRootCode | grouse/src/asmCodeGenerator/ASMCodeGenerator.java:128-130 | returns the root's fragment, or null when it has none |
| AsmCodeGenerator.Generator.constructor | grouse/src/asmCodeGenerator/ASMCodeGenerator.java:48-51 | the generator holds the root and the shared labeller |
| AsmCodeGenerator.Generator.MakeAsm | grouse/src/asmCodeGenerator/ASMCodeGenerator.java:57-66 | the output exists exactly when the root has a scope and generation succeeds, and it is `AsmLayout` of the preamble, the scope's size and the program's code; the labeller ends where `Gen` says |
| AsmCodeGenerator.Generator.GlobalVariableBlockAsm | grouse/src/asmCodeGenerator/ASMCodeGenerator.java:68-77 | DLabel global, then DataZ of the scope's allocated size; fails without a scope |
| AsmCodeGenerator.Generator.ProgramAsm | grouse/src/asmCodeGenerator/ASMCodeGenerator.java:79-87 | Label main, the program's code, then Halt; the labeller ends where `Gen` says |
| AsmCodeGenerator.Generator.ProgramCode | grouse/src/asmCodeGenerator/ASMCodeGenerator.java:89-93 | the root's code is what `Gen` gives for the whole tree |
| SemanticRules.Analyze | grouse/src/semanticAnalyzer/SemanticAnalysisVisitor.java:39-59 | analysis only adds types, bindings and diagnostics, and leaves every expression not being declared typed |
| SemanticRules.AnalyzeChildren | grouse/src/parseTree/nodeTypes/BlockNode.java:27 | after the first i children every one of them that is an expression not being declared is typed |
| SemanticRules.LeaveRule | grouse/src/semanticAnalyzer/SemanticAnalysisVisitor.java:81-216 | each node kind's rule only adds, and types the node if it is an expression not being declared |
| SemanticAnalysisVisitor.Analyzer.constructor | grouse/src/semanticAnalyzer/SemanticAnalysisVisitor.java:36-42 | no node carries a type, binding or scope yet, and nothing is logged |
| SemanticAnalysisVisitor.Analyzer.VisitProgram | grouse/src/semanticAnalyzer/SemanticAnalysisVisitor.java:46-77 | a fresh program scope is attached to the program node and left closed, and the recorded facts are `AnalyzeProgram` |
| SemanticAnalysisVisitor.Analyzer.Visit | grouse/src/parseTree/nodeTypes/BlockNode.java:25-29 | visiting a subtree records exactly `Analyze` of it and keeps the scope invariant |
| SemanticAnalysisVisitor.Analyzer.VisitChildren | grouse/src/parseTree/nodeTypes/BlockNode.java:27 | the children, visited in order, record exactly `AnalyzeChildren` and keep the scope invariant |
| SemanticAnalysisVisitor.Analyzer.Leave | grouse/src/semanticAnalyzer/SemanticAnalysisVisitor.java:81-216 | each leave or leaf visit records exactly `LeaveRule` and keeps the scope invariant |
| SemanticAnalysisVisitor.Analyzer.AddBinding | grouse/src/semanticAnalyzer/SemanticAnalysisVisitor.java:236-240 | creates the binding at the next free offset and attaches it to the identifier |
| SemanticAnalysisVisitor.Analyzer.CheckOperator | grouse/src/semanticAnalyzer/SemanticAnalysisVisitor.java:113-138 | the operator node gets the matching result type, or `ERROR` and one logged diagnostic |
| SemanticProperties.LiteralTypes | grouse/src/semanticAnalyzer/SemanticAnalysisVisitor.java:178-206 | each literal gets its own type and an error node gets `ERROR`; nothing else changes |
| SemanticProperties.UntypedStatements | grouse/src/semanticAnalyzer/SemanticAnalysisVisitor.java:55-83 | print statements, main blocks, newlines and separators get no type and add nothing of their own |
| SemanticProperties.ExpressionKeepsScope | grouse/src/semanticAnalyzer/SemanticAnalysisVisitor.java:113-234 | analyzing an expression creates no binding and leaves the scope table as it was |
| SemanticProperties.DeclarationRule | grouse/src/semanticAnalyzer/SemanticAnalysisVisitor.java:85-97 | statement and identifier get the initializer's type; one binding of that type at the next offset is created and attached |
| SemanticProperties.LetRule | grouse/src/semanticAnalyzer/SemanticAnalysisVisitor.java:99-109 | as for a declaration, after the target was first resolved as a reference (logging an undeclared name) |
| SemanticProperties.BinaryOperatorRule | grouse/src/semanticAnalyzer/SemanticAnalysisVisitor.java:113-138 | accepted operand types give the signature's result; otherwise `ERROR` and exactly one diagnostic |
| SemanticProperties.UnaryOperatorRule | grouse/src/semanticAnalyzer/SemanticAnalysisVisitor.java:146-168 | the same rule on the one-element type list |
| SemanticProperties.IdentifierRule | grouse/src/semanticAnalyzer/SemanticAnalysisVisitor.java:220-229 | a declared identifier is left alone; otherwise it takes the binding's type and binding, or `ERROR` and one diagnostic when the name is unknown |
| SemanticProperties.LetTargetIsAReference | grouse/src/semanticAnalyzer/SemanticAnalysisVisitor.java:231-234 | only a declaration's first child is being declared, so a let target is resolved |
| SemanticProperties.ScopeStaysConsistent | grouse/src/semanticAnalyzer/SemanticAnalysisVisitor.java:236-240 | analysis keeps storage packed and every table entry a created binding under its own name |
| SemanticProperties.LeaveKeepsConsistent | grouse/src/semanticAnalyzer/SemanticAnalysisVisitor.java:81-216 | every leave rule keeps the scope invariant |
| SemanticProperties.DeclareKeepsConsistent | grouse/src/semanticAnalyzer/SemanticAnalysisVisitor.java:236-240 | creating a binding keeps the scope invariant |
| SemanticProperties.ChildrenStayConsistent | grouse/src/semanticAnalyzer/SemanticAnalysisVisitor.java:39-59 | analyzing children in order keeps the scope invariant |
| SemanticProperties.ProgramStorage | grouse/src/semanticAnalyzer/SemanticAnalysisVisitor.java:46-77 | after the whole pass the program's bindings have disjoint storage inside the allocated size |
| SemanticProperties.ErrorOperandCascades | grouse/src/semanticAnalyzer/SemanticAnalysisVisitor.java:132-137 | an `ERROR` operand makes the operator `ERROR` with one more diagnostic |
| SemanticProperties.OnePlusTrue | grouse/src/semanticAnalyzer/SemanticAnalysisVisitor.java:113-138 | `1 + true` is typed `ERROR` with exactly one diagnostic naming `+` and the types |
| LabelProperties.GeneratedLabelsUnique | grouse/src/asmCodeGenerator/ASMCodeGenerator.java:89-93 | in the code of any subtree every `Label` and `DLabel` names a generated label numbered after the counter generation started from and at most the counter it ended with, and no two of them name the same label (given that binding address code places no label) |
| LabelProperties.GenLabels | grouse/src/asmCodeGenerator/ASMCodeGenerator.java:181-330 | the labels a node's code places occur once each and take numbers handed out while it was generated |
| LabelProperties.GenChildrenLabels | grouse/src/parseTree/nodeTypes/BlockNode.java:25-29 | the code of the first i children places each label once, numbered within the counter range their generation used |
| LabelProperties.LeaveLabels | grouse/src/asmCodeGenerator/ASMCodeGenerator.java:181-330 | every leave step keeps its children's labels and adds only labels numbered past the counter it started from |
| LabelProperties.LeafLabels | grouse/src/asmCodeGenerator/ASMCodeGenerator.java:657-697 | a leaf places no label, except a string constant, which places one data label under the next number |
| LabelProperties.StringDataPlaced | grouse/src/asmCodeGenerator/ASMCodeGenerator.java:687-697 | a string constant's code places exactly its data label |
| LabelProperties.AssignmentLabels | grouse/src/asmCodeGenerator/ASMCodeGenerator.java:271-297 | a declaration or let places exactly its children's labels |
| LabelProperties.ArithmeticLabels | grouse/src/asmCodeGenerator/ASMCodeGenerator.java:602-628 | an arithmetic operator places exactly its operands' labels: the divide check and the opcode place none |
| LabelProperties.ComparisonLabels | grouse/src/asmCodeGenerator/ASMCodeGenerator.java:366-400 | a comparison places its operands' labels and its six own labels, each once, under the next number |
| LabelProperties.TestPlacesNone | grouse/src/asmCodeGenerator/ASMCodeGenerator.java:402-589 | no comparison test places a label |
| LabelProperties.LayoutPlaced | grouse/src/asmCodeGenerator/ASMCodeGenerator.java:393-600 | a comparison layout places the operands' labels and the start, arg2, sub, true, false and join labels |
| LabelProperties.SixFresh | grouse/src/asmCodeGenerator/ASMCodeGenerator.java:369-374 | the six labels that share one number occur once each |
| LabelProperties.PrintLabels | grouse/src/asmCodeGenerator/ASMCodeGenerator.java:205-217 | a print statement places its children's labels and one diamond per boolean item, numbered after them |
| LabelProperties.PrintItemsLabels | grouse/src/asmCodeGenerator/ASMCodeGenerator.java:205-217 | the print loop places its children's labels and the diamonds numbered from the counter to where it ends |
| LabelProperties.PrintItemLabels | grouse/src/asmCodeGenerator/ASMCodeGenerator.java:231-238 | one print item places its child's labels and, for a boolean, the diamond taking the next number |
| LabelProperties.DiamondPlaced | grouse/src/asmCodeGenerator/ASMCodeGenerator.java:245-253 | a boolean-to-string diamond places exactly its true and join labels |
| LabelProperties.DiamondLabelsOnce | grouse/src/asmCodeGenerator/ASMCodeGenerator.java:245-246 | the diamonds numbered in a range place each label once, within that range |
| LabelProperties.BlockLabels | grouse/src/asmCodeGenerator/ASMCodeGenerator.java:187-201 | a program or main block places exactly its children's labels |

## Left out

- Runtime preamble: `RunTime.getEnvironment()` is a parameter of `MakeAsm`. The runtime labels and format strings are distinct symbolic names.
- Labels: generated labels are prefix, number and suffix. Their text is not modelled.
- Target machine: the stack machine's semantics is not modelled. Only the emitted instruction sequences are constrained.
- Logging and debug output: a logged error is an entry appended to a ghost diagnostics sequence. Debug printing is dropped.
- Unseen classes: the internals of `Scope`, `Binding`, `Labeller`, `ASMCodeFragment` and `FunctionSignatures` are not part of this model.
  - They are given contracts: the counter, the offset allocation, and signature lookup as the first exact match.
- Operator signatures: the overload table is a parameter of the analysis. `Types.StandardSignatures` is the binary table of the language design. The unary table is not known, so unary facts hold for any table.
- Identifier lookup: `findVariableBinding` is not part of this model. An identifier with no binding logs an undeclared-identifier diagnostic and is typed `ERROR`.
- `Binding.generateAddress`: it is not part of this model, so the address code of each binding is an input (`Decoration.generateAddress`).
- LabelProperties.GeneratedLabelsUnique, LabelProperties.GenLabels: label uniqueness is proved on the assumption that the address code of a binding places no label, since that code is an input (`LabelProperties.AddressesPlaceNoLabel`).
- Number parsing: `Double.parseDouble` is exact decimal parsing into reals. It accepts an optional sign, digits, and an optional point with fraction digits.
  - Exponents, hexadecimal forms, `NaN`/`Infinity` and the trailing `d`/`f` suffixes are not modelled.
  - Floating-point rounding is not modelled. Float immediates are kept as their lexemes.
- CodeProperties.DivideCheckExactly: the operator lexeme is compared with `/` by value. The source compares the strings with `==`, which is an identity test in Java and holds only when the scanner shares the interned lexeme.
- Java assertions: a failing `assert` is modelled as failure, as if assertions were enabled.
  - With assertions disabled, `printFormat` would return an empty format and `opcodeForStore` a null opcode, and generation would go on.
- Unary operators and error nodes: the code generator has no rule for them, so they fail (`CodeProperties.NoCodeForUnaryOrError`).
- Comparisons on non-literal operands: the model keeps the source's behaviour, in which such comparisons fail because the operand lexemes do not parse. No corrected variant is modelled.
- Scope creation: `enterSubscope` is never called, so only the program scope is modelled.
- Labeller ownership: the process-wide static labeller is one object passed to the generator. No concurrency is modelled.
- Visitor plumbing: the dispatch (`ParseNodeVisitor.Default`, `accept`) becomes a `match`. `BlockNode`, which neither pass handles, has no constructor in the tree.
- CodeRules.Gen, CodeRules.Leave, CodeRules.OperatorCode, CodeRules.PrintItems and CodeRules.BlockLeave: their own contracts state only how the label counter moves. The shape of their code is stated by the CodeProperties lemmas and by the CodeVisitor methods proved equal to them.
- CodeRules.PrintFormat and CodeRules.LeafCode: their own contracts state only which inputs they accept and how the counter moves. The format of each type is stated by `CodeProperties.PrintFormatPerType`, and the instructions of each leaf by `CodeProperties.LeafShape`.
