/** Labels in the generated code are unique program-wide: every label the
    code of a node places (with `Label` or `DLabel`) is a generated label
    whose number the labeller handed out while that node's code was being
    generated, and no label is placed twice. A comparison's six labels and
    a print diamond's two labels share one number and differ by prefix. */
module LabelProperties {
  import opened Wrappers
  import L = Lexical
  import opened Types
  import opened Ast
  import opened Asm
  import opened CodeRules
  import opened CodeProperties

  /** Whether an instruction places a label. */
  predicate Places(x: Instr) {
    x.Instr? && (x.opcode == Label || x.opcode == DLabel) && x.operand.LabelOperand?
  }

  /** The labels `s` places, each as often as it is placed. */
  function Placed(s: seq<Instr>): multiset<LabelName> {
    if s == [] then multiset{}
    else (if Places(s[0]) then multiset{s[0].operand.name} else multiset{}) + Placed(s[1..])
  }

  /** Every label of `m` occurs once, and is a generated label whose number
      lies in `(lo, hi]`. */
  predicate FreshLabels(m: multiset<LabelName>, lo: nat, hi: nat) {
    forall l :: l in m ==> m[l] == 1 && l.Generated? && lo < l.number <= hi
  }

  /** Every label `s` places is placed once, and is a generated label whose
      number lies in `(lo, hi]`. */
  predicate FreshlyLabelled(s: seq<Instr>, lo: nat, hi: nat) {
    FreshLabels(Placed(s), lo, hi)
  }

  /** The address code of every binding places no label. */
  ghost predicate AddressesPlaceNoLabel(d: Decoration) {
    forall b :: Placed(d.generateAddress(b)) == multiset{}
  }

  lemma {:induction false} PlacedAppend(a: seq<Instr>, b: seq<Instr>)
    ensures Placed(a + b) == Placed(a) + Placed(b)
    decreases |a|
  {
    if a == [] {
      assert a + b == b;
    } else {
      assert (a + b)[0] == a[0] && (a + b)[1..] == a[1..] + b;
      PlacedAppend(a[1..], b);
    }
  }

  /** Labels numbered in `(lo, mid]` together with labels numbered in
      `(mid, hi]` occur once each, numbered in `(lo, hi]`. */
  lemma FreshUnion(m1: multiset<LabelName>, m2: multiset<LabelName>, lo: nat, mid: nat, hi: nat)
    requires lo <= mid <= hi
    requires FreshLabels(m1, lo, mid) && FreshLabels(m2, mid, hi)
    ensures FreshLabels(m1 + m2, lo, hi)
  {
    forall l | l in m1 + m2 ensures (m1 + m2)[l] == 1 && l.Generated? && lo < l.number <= hi {
      if l in m1 {
        assert l !in m2;
      } else {
        assert l in m2;
      }
    }
  }

  /** Code numbered in `(lo, mid]` followed by code numbered in `(mid, hi]`
      places every label once, numbered in `(lo, hi]`. */
  lemma FreshConcat(a: seq<Instr>, b: seq<Instr>, lo: nat, mid: nat, hi: nat)
    requires lo <= mid <= hi
    requires FreshlyLabelled(a, lo, mid) && FreshlyLabelled(b, mid, hi)
    ensures FreshlyLabelled(a + b, lo, hi)
  {
    PlacedAppend(a, b);
    FreshUnion(Placed(a), Placed(b), lo, mid, hi);
  }

  /** The labels placed by the code of the first `|codes|` children. */
  lemma {:induction false} ConcatPlaced(codes: seq<Code>, c: Code)
    ensures Placed(Concat(codes + [c])) == Placed(Concat(codes)) + Placed(c.instrs)
  {
    ConcatSnoc(codes, c);
    PlacedAppend(Concat(codes), c.instrs);
  }

  /** Coercing code to a value adds no label. */
  lemma ValuePlacesNoMore(c: Code, t: Option<PrimitiveType>)
    requires ValueOf(c, t).Some?
    ensures Placed(ValueOf(c, t).value.instrs) == Placed(c.instrs)
  {
    if c.kind == GeneratesAddress {
      PlacedAppend(c.instrs, [Op(LoadOpcode(t).value)]);
    }
  }

  // ---------------------------------------------------------------------
  // Print diamonds

  function TrueLabel(k: nat): LabelName {
    Generated(PrintTruePrefix, k, "")
  }

  function JoinLabel(k: nat): LabelName {
    Generated(PrintJoinPrefix, k, "")
  }

  /** The labels of the print diamonds numbered `lo + 1` to `hi`. */
  function DiamondLabels(lo: nat, hi: nat): multiset<LabelName>
    decreases hi
  {
    if hi <= lo then multiset{} else DiamondLabels(lo, hi - 1) + multiset{TrueLabel(hi), JoinLabel(hi)}
  }

  /** Each diamond label numbered in `(lo, hi]` occurs once. */
  lemma {:induction false} DiamondLabelsOnce(lo: nat, hi: nat)
    ensures forall l :: l in DiamondLabels(lo, hi) ==>
              DiamondLabels(lo, hi)[l] == 1 && l.Generated? && lo < l.number <= hi
              && (l.prefix == PrintTruePrefix || l.prefix == PrintJoinPrefix)
    decreases hi
  {
    if hi > lo {
      DiamondLabelsOnce(lo, hi - 1);
      assert TrueLabel(hi) != JoinLabel(hi) by {
        assert PrintTruePrefix[15] != PrintJoinPrefix[15];
      }
    }
  }

  /** The labels one instruction places. */
  function PlacedBy(x: Instr): multiset<LabelName> {
    if Places(x) then multiset{x.operand.name} else multiset{}
  }

  /** The suffix from `i` places what `s[i]` places and what follows it. */
  lemma PlacedFrom(s: seq<Instr>, i: nat)
    requires i < |s|
    ensures Placed(s[i..]) == PlacedBy(s[i]) + Placed(s[i + 1..])
  {
    assert s[i..][1..] == s[i + 1..];
  }

  /** A six-instruction sequence places what its instructions place. */
  lemma PlacedSix(s: seq<Instr>)
    requires |s| == 6
    ensures Placed(s) == PlacedBy(s[0]) + PlacedBy(s[1]) + PlacedBy(s[2])
                         + PlacedBy(s[3]) + PlacedBy(s[4]) + PlacedBy(s[5])
  {
    assert s[0..] == s;
    PlacedFrom(s, 0);
    PlacedFrom(s, 1);
    PlacedFrom(s, 2);
    PlacedFrom(s, 3);
    PlacedFrom(s, 4);
    PlacedFrom(s, 5);
    assert s[6..] == [];
  }

  /** A diamond-shaped sequence: two label-free instructions around each of
      two labels. */
  lemma PlacedDiamondShape(a: Instr, b: Instr, c: Instr, t: LabelName, e: Instr, j: LabelName)
    requires PlacedBy(a) == PlacedBy(b) == PlacedBy(c) == PlacedBy(e) == multiset{}
    ensures Placed([a, b, c, OpTo(Label, t), e, OpTo(Label, j)]) == multiset{t, j}
  {
    var s := [a, b, c, OpTo(Label, t), e, OpTo(Label, j)];
    PlacedSix(s);
    PlacedByLabel(t);
    PlacedByLabel(j);
    var front := PlacedBy(s[0]) + PlacedBy(s[1]) + PlacedBy(s[2]);
    assert front == multiset{};
    assert front + PlacedBy(s[3]) == multiset{t};
    assert front + PlacedBy(s[3]) + PlacedBy(s[4]) == multiset{t};
  }

  /** An instruction other than `Label` and `DLabel` places nothing. */
  lemma PlacedByOther(op: Opcode, l: LabelName)
    requires op != Label && op != DLabel
    ensures PlacedBy(OpTo(op, l)) == multiset{}
  {
  }

  /** `Label l` places `l`. */
  lemma PlacedByLabel(l: LabelName)
    ensures PlacedBy(OpTo(Label, l)) == multiset{l}
  {
  }

  /** The diamond of `BooleanToString(k)` places its true and join labels. */
  lemma DiamondPlaced(k: nat)
    ensures Placed(BooleanToString(k)) == multiset{TrueLabel(k), JoinLabel(k)}
  {
    PlacedByOther(JumpTrue, TrueLabel(k));
    PlacedByOther(PushD, Runtime(BooleanFalseString));
    PlacedByOther(Jump, JoinLabel(k));
    PlacedByOther(PushD, Runtime(BooleanTrueString));
    PlacedDiamondShape(OpTo(JumpTrue, TrueLabel(k)), OpTo(PushD, Runtime(BooleanFalseString)),
                       OpTo(Jump, JoinLabel(k)), TrueLabel(k),
                       OpTo(PushD, Runtime(BooleanTrueString)), JoinLabel(k));
  }

  /** The labels of diamonds `(lo, mid]` and `(mid, hi]` are those of
      diamonds `(lo, hi]`. */
  lemma {:induction false} DiamondLabelsSplit(lo: nat, mid: nat, hi: nat)
    requires lo <= mid <= hi
    ensures DiamondLabels(lo, hi) == DiamondLabels(lo, mid) + DiamondLabels(mid, hi)
    decreases hi
  {
    if hi > mid {
      var pair := multiset{TrueLabel(hi), JoinLabel(hi)};
      DiamondLabelsSplit(lo, mid, hi - 1);
      assert DiamondLabels(lo, hi) == DiamondLabels(lo, hi - 1) + pair;
      assert DiamondLabels(mid, hi) == DiamondLabels(mid, hi - 1) + pair;
    }
  }

  // ---------------------------------------------------------------------
  // Code that places no label

  /** No instruction of `s` places a label. */
  predicate PlacesNone(s: seq<Instr>) {
    forall i :: 0 <= i < |s| ==> !Places(s[i])
  }

  lemma {:induction false} PlacesNoneEmpty(s: seq<Instr>)
    requires PlacesNone(s)
    ensures Placed(s) == multiset{}
    decreases |s|
  {
    if s != [] {
      assert PlacesNone(s[1..]) by {
        forall i | 0 <= i < |s| - 1 ensures !Places(s[1..][i]) {
          assert s[1..][i] == s[i + 1];
        }
      }
      PlacesNoneEmpty(s[1..]);
    }
  }

  lemma GreaterTestsPlaceNone(lt: Option<PrimitiveType>, rt: Option<PrimitiveType>, same: bool,
                              yes: LabelName, no: LabelName)
    ensures PlacesNone(GreaterTest(lt, rt, yes, no))
    ensures PlacesNone(GreaterOrEqualTest(lt, rt, same, yes, no))
  {
  }

  lemma LesserTestsPlaceNone(lt: Option<PrimitiveType>, rt: Option<PrimitiveType>, same: bool,
                             yes: LabelName, no: LabelName)
    ensures PlacesNone(LesserTest(lt, rt, yes, no))
    ensures PlacesNone(LesserOrEqualTest(lt, rt, same, yes, no))
  {
  }

  lemma EqualityTestsPlaceNone(lt: Option<PrimitiveType>, rt: Option<PrimitiveType>, left: string, right: string,
                               yes: LabelName, no: LabelName)
    ensures PlacesNone(EqualTest(lt, rt, left, right, yes, no))
    ensures PlacesNone(NotEqualTest(lt, rt, left, right, yes, no))
  {
  }

  /** A comparison's test jumps to its labels but places none. */
  lemma TestPlacesNone(p: L.Punctuator, lt: Option<PrimitiveType>, rt: Option<PrimitiveType>,
                       left: string, right: string, same: bool, yes: LabelName, no: LabelName)
    requires !IsArithmetic(p)
    ensures Placed(ComparisonTest(p, lt, rt, left, right, same, yes, no)) == multiset{}
  {
    GreaterTestsPlaceNone(lt, rt, same, yes, no);
    LesserTestsPlaceNone(lt, rt, same, yes, no);
    EqualityTestsPlaceNone(lt, rt, left, right, yes, no);
    PlacesNoneEmpty(ComparisonTest(p, lt, rt, left, right, same, yes, no));
  }

  /** The code of the two children of a statement or operator. */
  lemma {:induction false} ConcatPair(codes: seq<Code>)
    requires |codes| == 2
    ensures Concat(codes) == codes[0].instrs + codes[1].instrs
  {
    var rest := codes[1..];
    assert rest[0] == codes[1] && rest[1..] == [];
    assert Concat(rest) == codes[1].instrs + Concat([]);
  }

  // ---------------------------------------------------------------------
  // The leave steps

  /** A three-instruction sequence whose last two instructions place
      nothing places what its first places. */
  lemma PlacedFirstOfThree(x: Instr, a: Instr, b: Instr)
    requires PlacedBy(a) == PlacedBy(b) == multiset{}
    ensures Placed([x, a, b]) == PlacedBy(x)
  {
    var s := [x, a, b];
    assert s[0..] == s;
    PlacedFrom(s, 0);
    PlacedFrom(s, 1);
    PlacedFrom(s, 2);
    assert s[3..] == [];
  }

  /** A string constant's code places its data label. */
  lemma StringDataPlaced(l: LabelName, text: string)
    ensures Placed([OpTo(DLabel, l), Instr(DataS, StringOperand(text)), OpTo(PushD, l)]) == multiset{l}
  {
    assert PlacedBy(Instr(DataS, StringOperand(text))) == multiset{};
    PlacedByOther(PushD, l);
    PlacedFirstOfThree(OpTo(DLabel, l), Instr(DataS, StringOperand(text)), OpTo(PushD, l));
  }

  /** A leaf places no label, except a string constant, which places its
      data label under the next number. */
  lemma LeafLabels(n: Node, d: Decoration, lo: nat, ctr: nat)
    requires IsLeaf(n) && AddressesPlaceNoLabel(d) && lo <= ctr
    ensures LeafCode(n, d, ctr).Some? ==>
              FreshlyLabelled(LeafCode(n, d, ctr).value.0.instrs, lo, LeafCode(n, d, ctr).value.1)
  {
    if LeafCode(n, d, ctr).Some? {
      var s := LeafCode(n, d, ctr).value.0.instrs;
      if n.StringConstant? {
        StringDataPlaced(Generated(StringLabelPrefix, ctr + 1, ""), n.stringValue);
      } else if n.Identifier? {
        assert Placed(d.generateAddress(d.bindings[n.id])) == multiset{};
      } else {
        assert PlacesNone(s);
        PlacesNoneEmpty(s);
      }
    }
  }

  /** A declaration or let places the labels of its children's code. */
  lemma {:induction false} AssignmentLabels(n: Node, codes: seq<Code>, d: Decoration, lo: nat, c: nat)
    requires n.Declaration? || n.LetStatement?
    requires |codes| == 2 && FreshlyLabelled(Concat(codes), lo, c)
    ensures AssignmentCode(n, codes, d).Some? ==> FreshlyLabelled(AssignmentCode(n, codes, d).value.instrs, lo, c)
  {
    if AssignmentCode(n, codes, d).Some? {
      var v := ValueOf(codes[1], TypeOf(d, n.init)).value;
      var store := [Op(StoreOpcode(TypeOf(d, n)).value)];
      ValuePlacesNoMore(codes[1], TypeOf(d, n.init));
      ConcatPair(codes);
      PlacedAppend(codes[0].instrs, codes[1].instrs);
      PlacedAppend(codes[0].instrs, v.instrs);
      PlacedAppend(codes[0].instrs + v.instrs, store);
      assert PlacesNone(store);
      PlacesNoneEmpty(store);
    }
  }

  /** An arithmetic operator places the labels of its operands' code. */
  lemma {:induction false} ArithmeticLabels(n: Node, p: L.Punctuator, codes: seq<Code>, d: Decoration, lo: nat, c: nat)
    requires n.BinaryOperator? && IsArithmetic(p) && |codes| == 2
    requires FreshlyLabelled(Concat(codes), lo, c)
    ensures ArithmeticCode(n, p, codes, d).Some? ==> FreshlyLabelled(ArithmeticCode(n, p, codes, d).value.instrs, lo, c)
  {
    if ArithmeticCode(n, p, codes, d).Some? {
      var a1 := ValueOf(codes[0], TypeOf(d, n.left)).value;
      var a2 := ValueOf(codes[1], TypeOf(d, n.right)).value;
      var tail := ArithmeticTail(n, p, d);
      ValuePlacesNoMore(codes[0], TypeOf(d, n.left));
      ValuePlacesNoMore(codes[1], TypeOf(d, n.right));
      ConcatPair(codes);
      PlacedAppend(codes[0].instrs, codes[1].instrs);
      PlacedAppend(a1.instrs, a2.instrs);
      PlacedAppend(a1.instrs + a2.instrs, tail);
      assert PlacesNone(tail);
      PlacesNoneEmpty(tail);
    }
  }

  /** The six labels of one comparison. */
  function Six(ls: CompareLabels): multiset<LabelName> {
    multiset{ls.start} + multiset{ls.arg2} + multiset{ls.sub} + TrailerLabels(ls)
  }

  /** The three labels the trailer places. */
  function TrailerLabels(ls: CompareLabels): multiset<LabelName> {
    multiset{ls.yes} + multiset{ls.no} + multiset{ls.join}
  }

  /** The one-instruction sequence `Label l` places `l`. */
  lemma PlacedLabelAlone(l: LabelName)
    ensures Placed([OpTo(Label, l)]) == multiset{l}
  {
    PlacedFrom([OpTo(Label, l)], 0);
    assert [OpTo(Label, l)][1..] == [];
  }

  /** The trailer places the true, false and join labels. */
  lemma TrailerPlaced(ls: CompareLabels)
    ensures Placed(ComparisonTrailer(ls)) == TrailerLabels(ls)
  {
    var yes := [OpTo(Label, ls.yes), Instr(PushI, IntOperand(1)), OpTo(Jump, ls.join)];
    var no := [OpTo(Label, ls.no), Instr(PushI, IntOperand(0)), OpTo(Jump, ls.join)];
    assert ComparisonTrailer(ls) == yes + no + [OpTo(Label, ls.join)];
    assert PlacedBy(Instr(PushI, IntOperand(1))) == PlacedBy(Instr(PushI, IntOperand(0))) == multiset{};
    PlacedByOther(Jump, ls.join);
    PlacedFirstOfThree(yes[0], yes[1], yes[2]);
    PlacedFirstOfThree(no[0], no[1], no[2]);
    PlacedByLabel(ls.yes);
    PlacedByLabel(ls.no);
    PlacedLabelAlone(ls.join);
    PlacedAppend(yes, no);
    PlacedAppend(yes + no, [OpTo(Label, ls.join)]);
  }

  /** A comparison's layout places its operands' labels and its own six. */
  lemma LayoutPlaced(ls: CompareLabels, arg1: seq<Instr>, arg2: seq<Instr>, test: seq<Instr>)
    requires Placed(test) == multiset{}
    ensures Placed(ComparisonLayout(ls, arg1, arg2, test)) == Placed(arg1) + Placed(arg2) + Six(ls)
  {
    var s1 := [OpTo(Label, ls.start)] + arg1;
    var s2 := s1 + [OpTo(Label, ls.arg2)] + arg2;
    var s3 := s2 + [OpTo(Label, ls.sub)] + test;
    PlacedLabelAlone(ls.start);
    PlacedLabelAlone(ls.arg2);
    PlacedLabelAlone(ls.sub);
    PlacedAppend([OpTo(Label, ls.start)], arg1);
    assert Placed(s1) == multiset{ls.start} + Placed(arg1);
    PlacedAppend(s1, [OpTo(Label, ls.arg2)]);
    PlacedAppend(s1 + [OpTo(Label, ls.arg2)], arg2);
    assert Placed(s2) == Placed(s1) + multiset{ls.arg2} + Placed(arg2);
    PlacedAppend(s2, [OpTo(Label, ls.sub)]);
    PlacedAppend(s2 + [OpTo(Label, ls.sub)], test);
    assert Placed(s3) == Placed(s2) + multiset{ls.sub};
    TrailerPlaced(ls);
    PlacedAppend(s3, ComparisonTrailer(ls));
    assert Placed(ComparisonLayout(ls, arg1, arg2, test))
           == multiset{ls.start} + Placed(arg1) + multiset{ls.arg2} + Placed(arg2) + multiset{ls.sub}
              + TrailerLabels(ls);
    GatherLabels(ls.start, ls.arg2, ls.sub, TrailerLabels(ls), Placed(arg1), Placed(arg2));
  }

  /** Moving the labels of a layout past its operands' labels. */
  lemma GatherLabels(s: LabelName, a: LabelName, u: LabelName, t: multiset<LabelName>,
                     m1: multiset<LabelName>, m2: multiset<LabelName>)
    ensures multiset{s} + m1 + multiset{a} + m2 + multiset{u} + t
            == m1 + m2 + (multiset{s} + multiset{a} + multiset{u} + t)
  {
  }

  /** The six labels numbered `k` occur once each. */
  lemma SixFresh(k: nat)
    requires k > 0
    ensures FreshLabels(Six(CompareLabelsNumbered(k)), k - 1, k)
  {
    var ls := CompareLabelsNumbered(k);
    CompareLabelsDistinct(k, k);
    var all := [ls.start, ls.arg2, ls.sub, ls.yes, ls.no, ls.join];
    assert all[0] != all[1] && all[0] != all[2] && all[0] != all[3] && all[0] != all[4] && all[0] != all[5];
    assert all[1] != all[2] && all[1] != all[3] && all[1] != all[4] && all[1] != all[5];
    assert all[2] != all[3] && all[2] != all[4] && all[2] != all[5];
    assert all[3] != all[4] && all[3] != all[5] && all[4] != all[5];
  }

  /** A comparison places its operands' labels and six labels under the
      next number. */
  lemma {:induction false} ComparisonLabels(n: Node, p: L.Punctuator, codes: seq<Code>, d: Decoration, lo: nat, c: nat)
    requires n.BinaryOperator? && !IsArithmetic(p) && |codes| == 2
    requires lo <= c && FreshlyLabelled(Concat(codes), lo, c)
    ensures ComparisonCode(n, p, codes, d, c).Some? ==>
              FreshlyLabelled(ComparisonCode(n, p, codes, d, c).value.0.instrs, lo, c + 1)
  {
    if ComparisonCode(n, p, codes, d, c).Some? {
      ComparisonShape(n, p, codes, d, c);
      var ls := CompareLabelsNumbered(c + 1);
      var lt, rt := TypeOf(d, n.left), TypeOf(d, n.right);
      var a1, a2 := ValueOf(codes[0], lt).value, ValueOf(codes[1], rt).value;
      var same := SameLiteralValue(lt, n.left.tok.lexeme, n.right.tok.lexeme).value;
      var test := ComparisonTest(p, lt, rt, n.left.tok.lexeme, n.right.tok.lexeme, same, ls.yes, ls.no);
      ValuePlacesNoMore(codes[0], lt);
      ValuePlacesNoMore(codes[1], rt);
      ConcatPair(codes);
      PlacedAppend(codes[0].instrs, codes[1].instrs);
      TestPlacesNone(p, lt, rt, n.left.tok.lexeme, n.right.tok.lexeme, same, ls.yes, ls.no);
      LayoutPlaced(ls, a1.instrs, a2.instrs, test);
      SixFresh(c + 1);
      FreshUnion(Placed(a1.instrs) + Placed(a2.instrs), Six(ls), lo, c, c + 1);
    }
  }

  /** One print item places its child's labels and, for a boolean, the
      diamond that takes the next number. */
  lemma PrintItemLabels(child: Node, c: Code, d: Decoration, k: nat)
    ensures PrintItem(child, c, d, k).Some? ==>
              Placed(PrintItem(child, c, d, k).value.0)
              == Placed(c.instrs) + DiamondLabels(k, PrintItem(child, c, d, k).value.1)
  {
    if PrintItem(child, c, d, k).Some? && !child.Newline? && !child.Separator? {
      var t := TypeOf(d, child);
      var v := ValueOf(c, t).value;
      var convert := if t == Some(Boolean) then BooleanToString(k + 1) else [];
      assert PrintItem(child, c, d, k).value.0
             == v.instrs + convert + [OpTo(PushD, Runtime(PrintFormat(t).value)), Op(Printf)];
      ValuePlacesNoMore(c, t);
      ItemPlaced(v.instrs, convert, PrintFormat(t).value);
      if t == Some(Boolean) {
        DiamondPlaced(k + 1);
        assert DiamondLabels(k, k + 1) == multiset{TrueLabel(k + 1), JoinLabel(k + 1)};
      }
    }
  }

  /** Printing places nothing beyond the value and its conversion. */
  lemma ItemPlaced(value: seq<Instr>, convert: seq<Instr>, format: RuntimeSymbol)
    ensures Placed(value + convert + [OpTo(PushD, Runtime(format)), Op(Printf)]) == Placed(value) + Placed(convert)
  {
    var tail := [OpTo(PushD, Runtime(format)), Op(Printf)];
    PlacedAppend(value, convert);
    PlacedAppend(value + convert, tail);
    assert PlacesNone(tail);
    PlacesNoneEmpty(tail);
  }

  /** The print loop places its children's labels and the diamonds of its
      boolean items, numbered from the counter on. */
  lemma {:induction false} PrintItemsLabels(cs: seq<Node>, codes: seq<Code>, d: Decoration, ctr: nat)
    requires |cs| == |codes|
    ensures PrintItems(cs, codes, d, ctr).Some? ==>
              Placed(PrintItems(cs, codes, d, ctr).value.0)
              == Placed(Concat(codes)) + DiamondLabels(ctr, PrintItems(cs, codes, d, ctr).value.1)
    decreases |cs|
  {
    if cs != [] && PrintItems(cs, codes, d, ctr).Some? {
      var cinit, init := cs[..|cs| - 1], codes[..|codes| - 1];
      var last := codes[|codes| - 1];
      PrintItemsLabels(cinit, init, d, ctr);
      var before := PrintItems(cinit, init, d, ctr).value;
      var item := PrintItem(cs[|cs| - 1], last, d, before.1).value;
      PrintItemLabels(cs[|cs| - 1], last, d, before.1);
      SnocSplit(codes);
      PrintStepPlaced(before.0, item.0, init, last, ctr, before.1, item.1);
    }
  }

  lemma SnocSplit<X>(s: seq<X>)
    requires s != []
    ensures s[..|s| - 1] + [s[|s| - 1]] == s
  {
  }

  /** One pass of the print loop keeps the placed labels equal to the
      children's so far and the diamonds numbered so far. */
  lemma {:induction false} PrintStepPlaced(prefix: seq<Instr>, item: seq<Instr>, init: seq<Code>, last: Code, lo: nat, c: nat, c': nat)
    requires lo <= c <= c'
    requires Placed(prefix) == Placed(Concat(init)) + DiamondLabels(lo, c)
    requires Placed(item) == Placed(last.instrs) + DiamondLabels(c, c')
    ensures Placed(prefix + item) == Placed(Concat(init + [last])) + DiamondLabels(lo, c')
  {
    PlacedAppend(prefix, item);
    ConcatPlaced(init, last);
    DiamondLabelsSplit(lo, c, c');
    GatherPrinted(Placed(Concat(init)), DiamondLabels(lo, c), Placed(last.instrs), DiamondLabels(c, c'));
  }

  /** Moving the earlier diamonds past the last child's labels. */
  lemma GatherPrinted(a: multiset<LabelName>, b: multiset<LabelName>, c: multiset<LabelName>,
                      e: multiset<LabelName>)
    ensures a + b + c + e == a + c + (b + e)
  {
  }

  /** A print statement places its children's labels and the diamonds
      numbered after them. */
  lemma {:induction false} PrintLabels(cs: seq<Node>, codes: seq<Code>, d: Decoration, lo: nat, c: nat)
    requires |cs| == |codes| && lo <= c && FreshlyLabelled(Concat(codes), lo, c)
    ensures PrintItems(cs, codes, d, c).Some? ==>
              FreshlyLabelled(PrintItems(cs, codes, d, c).value.0, lo, PrintItems(cs, codes, d, c).value.1)
  {
    if PrintItems(cs, codes, d, c).Some? {
      var c' := PrintItems(cs, codes, d, c).value.1;
      PrintItemsLabels(cs, codes, d, c);
      DiamondLabelsOnce(c, c');
      FreshUnion(Placed(Concat(codes)), DiamondLabels(c, c'), lo, c, c');
    }
  }

  // ---------------------------------------------------------------------
  // The traversal

  /** A program or main block places its children's labels. */
  lemma {:induction false} BlockLabels(codes: seq<Code>, lo: nat, c: nat)
    requires FreshlyLabelled(Concat(codes), lo, c)
    ensures BlockLeave(codes, c).Some? ==>
              FreshlyLabelled(BlockLeave(codes, c).value.0.instrs, lo, BlockLeave(codes, c).value.1)
  {
    BlockConcatenates(codes);
  }

  lemma {:induction false} OperatorLabels(n: Node, codes: seq<Code>, d: Decoration, lo: nat, c: nat)
    requires n.BinaryOperator? && |codes| == 2
    requires lo <= c && FreshlyLabelled(Concat(codes), lo, c)
    ensures OperatorCode(n, codes, d, c).Some? ==>
              FreshlyLabelled(OperatorCode(n, codes, d, c).value.0.instrs, lo, OperatorCode(n, codes, d, c).value.1)
  {
    match n.tok.lextant
    case Some(Punctuation(p)) =>
      if IsArithmetic(p) {
        ArithmeticLabels(n, p, codes, d, lo, c);
      } else {
        ComparisonLabels(n, p, codes, d, lo, c);
      }
    case _ =>
  }

  /** Each leave step keeps the labels fresh: those of the children, and
      those it places itself under numbers it takes from the counter. */
  lemma {:induction false} LeaveLabels(n: Node, codes: seq<Code>, d: Decoration, lo: nat, c: nat)
    requires |codes| == |Children(n)| && lo <= c
    requires AddressesPlaceNoLabel(d) && FreshlyLabelled(Concat(codes), lo, c)
    ensures Leave(n, codes, d, c).Some? ==>
              FreshlyLabelled(Leave(n, codes, d, c).value.0.instrs, lo, Leave(n, codes, d, c).value.1)
  {
    if n.Program? || n.MainBlock? || n.PrintStatement? {
      GroupLeaveLabels(n, codes, d, lo, c);
    } else if n.Declaration? || n.LetStatement? || n.BinaryOperator? || n.UnaryOperator? {
      PairLeaveLabels(n, codes, d, lo, c);
    } else {
      LeafLabels(n, d, lo, c);
    }
  }

  /** The leave step of a program, main block or print statement. */
  lemma {:induction false} GroupLeaveLabels(n: Node, codes: seq<Code>, d: Decoration, lo: nat, c: nat)
    requires n.Program? || n.MainBlock? || n.PrintStatement?
    requires |codes| == |Children(n)| && lo <= c && FreshlyLabelled(Concat(codes), lo, c)
    ensures Leave(n, codes, d, c).Some? ==>
              FreshlyLabelled(Leave(n, codes, d, c).value.0.instrs, lo, Leave(n, codes, d, c).value.1)
  {
    if n.PrintStatement? {
      PrintLabels(n.children, codes, d, lo, c);
    } else {
      BlockLabels(codes, lo, c);
    }
  }

  /** The leave step of a declaration, let statement or operator. */
  lemma {:induction false} PairLeaveLabels(n: Node, codes: seq<Code>, d: Decoration, lo: nat, c: nat)
    requires n.Declaration? || n.LetStatement? || n.BinaryOperator? || n.UnaryOperator?
    requires |codes| == |Children(n)| && lo <= c && FreshlyLabelled(Concat(codes), lo, c)
    ensures Leave(n, codes, d, c).Some? ==>
              FreshlyLabelled(Leave(n, codes, d, c).value.0.instrs, lo, Leave(n, codes, d, c).value.1)
  {
    if n.BinaryOperator? {
      OperatorLabels(n, codes, d, lo, c);
    } else if !n.UnaryOperator? {
      AssignmentLabels(n, codes, d, lo, c);
    }
  }

  /** The code of a node places each label once, under a number the
      labeller handed out while that code was generated. */
  lemma {:induction false} GenLabels(n: Node, d: Decoration, ctr: nat)
    requires AddressesPlaceNoLabel(d)
    ensures Gen(n, d, ctr).Some? ==> FreshlyLabelled(Gen(n, d, ctr).value.0.instrs, ctr, Gen(n, d, ctr).value.1)
    decreases n, 1
  {
    if Gen(n, d, ctr).Some? {
      GenChildrenLabels(n, |Children(n)|, d, ctr);
      var children := GenChildren(n, |Children(n)|, d, ctr).value;
      LeaveLabels(n, children.0, d, ctr, children.1);
    }
  }

  /** The code of the first `i` children places each label once, under the
      numbers handed out while it was generated. */
  lemma {:induction false} GenChildrenLabels(n: Node, i: nat, d: Decoration, ctr: nat)
    requires i <= |Children(n)| && AddressesPlaceNoLabel(d)
    ensures GenChildren(n, i, d, ctr).Some? ==>
              FreshlyLabelled(Concat(GenChildren(n, i, d, ctr).value.0), ctr, GenChildren(n, i, d, ctr).value.1)
    decreases n, 0, i
  {
    if i > 0 && GenChildren(n, i, d, ctr).Some? {
      GenChildrenLabels(n, i - 1, d, ctr);
      var before := GenChildren(n, i - 1, d, ctr).value;
      GenLabels(Children(n)[i - 1], d, before.1);
      var child := Gen(Children(n)[i - 1], d, before.1).value;
      ConcatPlaced(before.0, child.0);
      FreshUnion(Placed(Concat(before.0)), Placed(child.0.instrs), ctr, before.1, child.1);
    }
  }

  /** A label placed at position `i` is among the labels `s` places. */
  lemma {:induction false} PlacedAt(s: seq<Instr>, i: nat)
    requires i < |s| && Places(s[i])
    ensures Placed(s)[s[i].operand.name] >= 1
    decreases i
  {
    if i > 0 {
      assert s[1..][i - 1] == s[i];
      PlacedAt(s[1..], i - 1);
    }
  }

  /** A label placed at two positions is placed at least twice. */
  lemma {:induction false} PlacedTwice(s: seq<Instr>, i: nat, j: nat)
    requires i < j < |s| && Places(s[i]) && Places(s[j]) && s[i].operand.name == s[j].operand.name
    ensures Placed(s)[s[i].operand.name] >= 2
    decreases i
  {
    assert s[1..][j - 1] == s[j];
    if i > 0 {
      assert s[1..][i - 1] == s[i];
      PlacedTwice(s[1..], i - 1, j - 1);
    } else {
      PlacedAt(s[1..], j - 1);
    }
  }

  /** Labels in the generated code, position by position: every `Label` or
      `DLabel` instruction places a generated label numbered after the
      counter the generation started from and at most the counter it ended
      with, and no two such instructions place the same label. */
  lemma GeneratedLabelsUnique(n: Node, d: Decoration, ctr: nat)
    requires AddressesPlaceNoLabel(d)
    ensures Gen(n, d, ctr).Some? ==>
              var s, c := Gen(n, d, ctr).value.0.instrs, Gen(n, d, ctr).value.1;
              && (forall i :: 0 <= i < |s| && Places(s[i]) ==>
                    s[i].operand.name.Generated? && ctr < s[i].operand.name.number <= c)
              && (forall i, j :: 0 <= i < j < |s| && Places(s[i]) && Places(s[j]) ==>
                    s[i].operand.name != s[j].operand.name)
  {
    if Gen(n, d, ctr).Some? {
      var s := Gen(n, d, ctr).value.0.instrs;
      GenLabels(n, d, ctr);
      forall i | 0 <= i < |s| && Places(s[i])
        ensures s[i].operand.name.Generated? && ctr < s[i].operand.name.number <= Gen(n, d, ctr).value.1
      {
        PlacedAt(s, i);
      }
      forall i, j | 0 <= i < j < |s| && Places(s[i]) && Places(s[j])
        ensures s[i].operand.name != s[j].operand.name
      {
        if s[i].operand.name == s[j].operand.name {
          PlacedTwice(s, i, j);
        }
      }
    }
  }
}
