/** ASMCodeGenerator: the code visitor, which keeps one fragment per visited
    node in a map and builds each node's fragment from its children's, and
    the driver that lays out the whole program. Each visit is proved to
    leave in the map exactly the code `CodeRules.Gen` describes. */
module AsmCodeGenerator {
  import opened Wrappers
  import L = Lexical
  import opened Types
  import opened Ast
  import opened SymbolTable
  import opened Asm
  import opened CodeRules
  import BooleanConstantNode

  /** No fragment occurs twice in the sequence. */
  ghost predicate Distinct(frags: seq<Fragment>)
  {
    forall j, k :: 0 <= j < k < |frags| ==> frags[j] != frags[k]
  }

  /** The fragments of the sequence, as a set. */
  ghost function Elems(frags: seq<Fragment>): set<Fragment>
  {
    if frags == [] then {} else Elems(frags[..|frags| - 1]) + {frags[|frags| - 1]}
  }

  lemma {:induction false} ElemsAre(frags: seq<Fragment>)
    ensures Elems(frags) == set j | 0 <= j < |frags| :: frags[j]
  {
    if frags != [] {
      var init := frags[..|frags| - 1];
      ElemsAre(init);
      forall f | f in (set j | 0 <= j < |frags| :: frags[j]) ensures f in Elems(frags) {
        var j :| 0 <= j < |frags| && f == frags[j];
        if j < |init| {
          assert f == init[j];
        }
      }
    }
  }

  lemma {:induction false} ElemsBound(frags: seq<Fragment>)
    ensures |Elems(frags)| <= |frags|
  {
    if frags != [] {
      ElemsBound(frags[..|frags| - 1]);
    }
  }

  /** As many fragments in the set as in the sequence: none is repeated. */
  lemma {:induction false} CountedDistinct(frags: seq<Fragment>)
    requires |Elems(frags)| == |frags|
    ensures Distinct(frags)
  {
    if frags != [] {
      var init, last := frags[..|frags| - 1], frags[|frags| - 1];
      ElemsBound(init);
      assert last in Elems(init) ==> Elems(frags) == Elems(init);
      CountedDistinct(init);
      ElemsAre(init);
      forall j, k | 0 <= j < k < |frags| ensures frags[j] != frags[k] {
        assert frags[j] == init[j];
        if k < |init| {
          assert frags[k] == init[k];
        }
      }
    }
  }

  /** A fragment not yet in `frags`, appended, adds one element. */
  lemma ElemsAppend(frags: seq<Fragment>, next: Fragment)
    requires next !in Elems(frags)
    ensures (frags + [next])[..|frags|] == frags
    ensures Elems(frags + [next]) == Elems(frags) + {next}
    ensures |Elems(frags + [next])| == |Elems(frags)| + 1
  {
    var s := frags + [next];
    assert s[..|s| - 1] == frags;
    assert Elems(s) == Elems(frags) + {next};
  }

  /** A fragment allocated since the old state is none of the fragments
      that existed then. */
  twostate lemma FreshNotIn(frags: seq<Fragment>, new next: Fragment)
    requires fresh(next)
    ensures next !in Elems(frags)
  {
    ElemsAre(frags);
  }

  /** Every fragment of the sequence was allocated after the old state. */
  twostate predicate AllFresh(new frags: seq<Fragment>)
  {
    frags == [] || (AllFresh(frags[..|frags| - 1]) && fresh(frags[|frags| - 1]))
  }

  twostate lemma {:induction false} AllFreshElems(new frags: seq<Fragment>)
    requires AllFresh(frags)
    ensures fresh(Elems(frags))
  {
    if frags != [] {
      AllFreshElems(frags[..|frags| - 1]);
    }
  }

  class CodeVisitor {
    const d: Decoration
    const labeller: Labeller
    var codeMap: map<NodeId, Fragment>
    var code: Fragment?

    constructor(d: Decoration, labeller: Labeller)
      ensures this.d == d && this.labeller == labeller
      ensures codeMap == map[] && code == null
    {
      this.d := d;
      this.labeller := labeller;
      codeMap := map[];
      code := null;
    }

    /** The fragments of the node's children. */
    function ChildFragments(n: Node): set<Fragment>
      reads this
      requires forall c :: c in Children(n) ==> c.id in codeMap
    {
      set c | c in Children(n) :: codeMap[c.id]
    }

    /** Every child has its own fragment in the map, holding `codes`. */
    ghost predicate Ready(n: Node, codes: seq<Code>)
      reads this, codeMap.Values
    {
      var cs := Children(n);
      && |codes| == |cs|
      && (forall c :: c in cs ==> c.id in codeMap && c.id != n.id)
      && (forall j :: 0 <= j < |cs| ==> cs[j].id in codeMap && codeMap[cs[j].id].Snapshot() == codes[j])
      && (forall j, k :: 0 <= j < k < |cs| ==> codeMap[cs[j].id] != codeMap[cs[k].id])
    }

    /** newAddressCode, newValueCode, newVoidCode. */
    method NewCode(n: Node, kind: CodeType)
      modifies this
      ensures fresh(code) && code.kind == kind && code.instrs == []
      ensures codeMap == old(codeMap)[n.id := code]
    {
      var f := new Fragment(kind);
      code := f;
      codeMap := codeMap[n.id := f];
    }

    /** getAndRemoveCode: the source removes by fragment from a map keyed by
        node, so the node's entry stays in the map. */
    method GetAndRemoveCode(n: Node) returns (frag: Fragment?)
      ensures frag == (if n.id in codeMap then codeMap[n.id] else null)
    {
      if n.id in codeMap {
        frag := codeMap[n.id];
      } else {
        frag := null;
      }
    }

    /** removeVoidCode; `null` where the fragment is missing or not void. */
    method RemoveVoidCode(n: Node) returns (frag: Fragment?)
      ensures frag != null <==> n.id in codeMap && codeMap[n.id].kind == GeneratesVoid
      ensures frag != null ==> frag == codeMap[n.id]
    {
      frag := GetAndRemoveCode(n);
      if frag != null && frag.kind != GeneratesVoid {
        frag := null;
      }
    }

    /** removeAddressCode; `null` where the fragment is missing or not an address. */
    method RemoveAddressCode(n: Node) returns (frag: Fragment?)
      ensures frag != null <==> n.id in codeMap && codeMap[n.id].kind == GeneratesAddress
      ensures frag != null ==> frag == codeMap[n.id]
    {
      frag := GetAndRemoveCode(n);
      if frag != null && frag.kind != GeneratesAddress {
        frag := null;
      }
    }

    /** removeValueCode: the node's fragment, coerced in place to value code. */
    method RemoveValueCode(n: Node) returns (frag: Fragment?)
      modifies if n.id in codeMap then {codeMap[n.id]} else {}
      ensures n.id !in codeMap ==> frag == null
      ensures n.id in codeMap ==>
                var v := ValueOf(old(codeMap[n.id].Snapshot()), TypeOf(d, n));
                && (frag != null <==> v.Some?)
                && (frag != null ==> frag == codeMap[n.id] && frag.Snapshot() == v.value)
    {
      frag := GetAndRemoveCode(n);
      if frag != null {
        var ok := MakeFragmentValueCode(frag, n);
        if !ok {
          frag := null;
        }
      }
    }

    /** makeFragmentValueCode: void code is rejected; address code is turned
        into value code. */
    method MakeFragmentValueCode(frag: Fragment, n: Node) returns (ok: bool)
      modifies frag
      ensures var v := ValueOf(old(frag.Snapshot()), TypeOf(d, n));
              (ok <==> v.Some?) && (ok ==> frag.Snapshot() == v.value)
    {
      if frag.kind == GeneratesVoid {
        return false;
      }
      ok := true;
      if frag.kind == GeneratesAddress {
        ok := TurnAddressIntoValue(frag, n);
      }
    }

    /** turnAddressIntoValue: the one place a load is chosen by type. */
    method TurnAddressIntoValue(frag: Fragment, n: Node) returns (ok: bool)
      requires frag.kind == GeneratesAddress
      modifies frag
      ensures ok <==> LoadOpcode(TypeOf(d, n)).Some?
      ensures ok ==> frag.Snapshot() == Code(GeneratesValue, old(frag.instrs) + [Op(LoadOpcode(TypeOf(d, n)).value)])
    {
      var t := TypeOf(d, n);
      if t == Some(Integer) {
        frag.Add(Op(LoadI));
      } else if t == Some(Boolean) {
        frag.Add(Op(LoadC));
      } else if t == Some(Float) {
        frag.Add(Op(LoadF));
      } else if t == Some(Character) {
        frag.Add(Op(LoadC));
      } else if t == Some(String) {
        frag.Add(Op(LoadI));
      } else {
        return false;
      }
      frag.MarkAsValue();
      ok := true;
    }

    /** The traversal: children in order, then the node's own visit. */
    method Visit(n: Node) returns (ok: bool)
      requires UniqueIds(n)
      modifies this, labeller
      ensures var g := Gen(n, d, old(labeller.counter));
              && (ok <==> g.Some?)
              && (ok ==> n.id in codeMap && fresh(codeMap[n.id])
                         && codeMap[n.id].Snapshot() == g.value.0 && labeller.counter == g.value.1)
      ensures forall k :: k in old(codeMap) && k !in Ids(n) ==> k in codeMap && codeMap[k] == old(codeMap[k])
      decreases n, 1
    {
      ghost var codes;
      ok, codes := VisitChildren(n);
      if !ok {
        return;
      }
      ok := LeaveNode(n, codes);
    }

    /** Each of the first |frags| children has fragment `frags[j]` in the
        map, holding `codes[j]`. */
    ghost predicate Visited(cs: seq<Node>, frags: seq<Fragment>, codes: seq<Code>)
      reads this, frags
    {
      && |frags| == |codes| <= |cs|
      && forall j :: 0 <= j < |frags| ==>
           cs[j].id in codeMap && codeMap[cs[j].id] == frags[j] && frags[j].Snapshot() == codes[j]
    }

    /** The children's visits, in order; on success every child has its own
        fragment, made by these visits and holding the child's code. */
    method VisitChildren(n: Node) returns (ok: bool, ghost codes: seq<Code>)
      requires UniqueIds(n)
      modifies this, labeller
      ensures ok <==> GenChildren(n, |Children(n)|, d, old(labeller.counter)).Some?
      ensures ok ==> GenChildren(n, |Children(n)|, d, old(labeller.counter)) == Some((codes, labeller.counter))
      ensures ok ==> Ready(n, codes) && fresh(ChildFragments(n))
      ensures forall k :: k in old(codeMap) && k !in Ids(n) ==> k in codeMap && codeMap[k] == old(codeMap[k])
      decreases n, 0, 2
    {
      ghost var frags;
      ok, codes, frags := VisitEachChild(n);
      if ok {
        ChildrenCounted(n, codes, frags);
        AllFreshElems(frags);
      }
    }

    /** The children loop; on success child `j` has the fresh fragment
        `frags[j]`, holding its code. */
    method VisitEachChild(n: Node) returns (ok: bool, ghost codes: seq<Code>, ghost frags: seq<Fragment>)
      requires UniqueIds(n)
      modifies this, labeller
      ensures ok <==> GenChildren(n, |Children(n)|, d, old(labeller.counter)).Some?
      ensures ok ==> GenChildren(n, |Children(n)|, d, old(labeller.counter)) == Some((codes, labeller.counter))
      ensures ok ==> |frags| == |Children(n)| && Visited(Children(n), frags, codes) && |Elems(frags)| == |frags|
      ensures ok ==> AllFresh(frags)
      ensures forall k :: k in old(codeMap) && k !in Ids(n) ==> k in codeMap && codeMap[k] == old(codeMap[k])
      decreases n, 0, 1
    {
      ghost var ctr0 := labeller.counter;
      ghost var map0 := codeMap;
      frags := [];
      codes := [];
      var cs := Children(n);
      var i := 0;
      while i < |cs|
        invariant i <= |cs| && |frags| == i
        invariant GenChildren(n, i, d, ctr0) == Some((codes, labeller.counter))
        invariant Visited(cs, frags, codes) && |Elems(frags)| == |frags|
        invariant AllFresh(frags)
        invariant forall k :: k in map0 && k !in Ids(n) ==> k in codeMap && codeMap[k] == map0[k]
      {
        ok, frags, codes := VisitStep(n, i, ctr0, map0, frags, codes);
        if !ok {
          return;
        }
        i := i + 1;
      }
      ok := true;
    }

    /** The loop's body: child `i` visited, and on success its fragment
        appended to what the loop has visited; a failure fails the whole
        children pass. Entries of `map0` outside the node stay as they were. */
    method VisitStep(n: Node, i: nat, ghost ctr0: nat, ghost map0: map<NodeId, Fragment>,
                     ghost frags: seq<Fragment>, ghost codes: seq<Code>)
      returns (ok: bool, ghost frags': seq<Fragment>, ghost codes': seq<Code>)
      requires UniqueIds(n) && i < |Children(n)| && |frags| == i
      requires GenChildren(n, i, d, ctr0) == Some((codes, labeller.counter))
      requires Visited(Children(n), frags, codes) && |Elems(frags)| == |frags|
      requires forall k :: k in map0 && k !in Ids(n) ==> k in codeMap && codeMap[k] == map0[k]
      modifies this, labeller
      ensures !ok ==> GenChildren(n, |Children(n)|, d, ctr0).None?
      ensures ok ==> GenChildren(n, i + 1, d, ctr0) == Some((codes', labeller.counter))
      ensures ok ==> |frags'| == i + 1 && Visited(Children(n), frags', codes') && |Elems(frags')| == |frags'|
      ensures ok ==> fresh(frags'[i]) && frags'[..i] == frags
      ensures forall k :: k in map0 && k !in Ids(n) ==> k in codeMap && codeMap[k] == map0[k]
      decreases n, 0, 0, i, 2
    {
      var cs := Children(n);
      ok := VisitNextWithin(n, i, ctr0, map0, frags, codes);
      frags', codes' := frags, codes;
      if !ok {
        return;
      }
      ghost var next := codeMap[cs[i].id];
      ExtendVisited(cs, frags, codes, next);
      ElemsAppend(frags, next);
      frags', codes' := frags + [next], codes + [next.Snapshot()];
    }

    /** The visit of child `i`, seen from the whole children pass: a failure
        fails the pass, and entries of `map0` outside the node stay. */
    method VisitNextWithin(n: Node, i: nat, ghost ctr0: nat, ghost map0: map<NodeId, Fragment>,
                           ghost frags: seq<Fragment>, ghost codes: seq<Code>)
      returns (ok: bool)
      requires UniqueIds(n) && i < |Children(n)| && |frags| == i
      requires GenChildren(n, i, d, ctr0) == Some((codes, labeller.counter))
      requires Visited(Children(n), frags, codes)
      requires forall k :: k in map0 && k !in Ids(n) ==> k in codeMap && codeMap[k] == map0[k]
      modifies this, labeller
      ensures !ok ==> GenChildren(n, |Children(n)|, d, ctr0).None?
      ensures ok ==> var c := Children(n)[i];
                     && c.id in codeMap && fresh(codeMap[c.id]) && codeMap[c.id] !in Elems(frags)
                     && GenChildren(n, i + 1, d, ctr0) == Some((codes + [codeMap[c.id].Snapshot()], labeller.counter))
      ensures Visited(Children(n), frags, codes)
      ensures forall k :: k in map0 && k !in Ids(n) ==> k in codeMap && codeMap[k] == map0[k]
      decreases n, 0, 0, i, 1
    {
      ghost var mapBefore := codeMap;
      ok := VisitNext(n, i, ctr0, frags, codes);
      forall k | k in map0 && k !in Ids(n) ensures k in codeMap && codeMap[k] == map0[k] {
        assert k in mapBefore;
      }
      if !ok {
        GenChildrenFailureSticks(n, i + 1, |Children(n)|, d, ctr0);
      } else {
        FreshNotIn(frags, codeMap[Children(n)[i].id]);
      }
    }

    /** The children's fragments, as the loop leaves them, make the node ready. */
    lemma {:induction false} ChildrenReady(n: Node, codes: seq<Code>, frags: seq<Fragment>)
      requires UniqueIds(n) && |frags| == |Children(n)|
      requires Visited(Children(n), frags, codes) && Distinct(frags)
      ensures Ready(n, codes)
      ensures ChildFragments(n) == Elems(frags)
    {
      var cs := Children(n);
      forall c | c in cs ensures c.id in codeMap && c.id != n.id {
        var j :| 0 <= j < |cs| && cs[j] == c;
      }
      assert Ready(n, codes);
      VisitedFragments(cs, frags, codes);
      ElemsAre(frags);
    }

    /** After the children loop: the node is ready, and its children's
        fragments are the ones the loop collected. */
    lemma {:induction false} ChildrenCounted(n: Node, codes: seq<Code>, frags: seq<Fragment>)
      requires UniqueIds(n) && |frags| == |Children(n)|
      requires Visited(Children(n), frags, codes) && |Elems(frags)| == |frags|
      ensures Ready(n, codes) && ChildFragments(n) == Elems(frags)
    {
      CountedDistinct(frags);
      ChildrenReady(n, codes, frags);
    }

    /** The fragments the loop visited are exactly the children's fragments. */
    lemma {:induction false} VisitedFragments(cs: seq<Node>, frags: seq<Fragment>, codes: seq<Code>)
      requires |frags| == |cs| && Visited(cs, frags, codes)
      ensures (set c | c in cs :: codeMap[c.id]) == set j | 0 <= j < |frags| :: frags[j]
    {
      var fs := set j | 0 <= j < |frags| :: frags[j];
      forall f | f in (set c | c in cs :: codeMap[c.id]) ensures f in fs {
        var c :| c in cs && f == codeMap[c.id];
        var j :| 0 <= j < |cs| && cs[j] == c;
      }
      forall f | f in fs ensures f in (set c | c in cs :: codeMap[c.id]) {
        var j :| 0 <= j < |frags| && f == frags[j];
        assert cs[j] in cs;
      }
    }

    /** One pass of the children loop: the visit of child `i`, which leaves
        the earlier children's fragments where they are. */
    method VisitNext(n: Node, i: nat, ghost ctr0: nat, ghost frags: seq<Fragment>, ghost codes: seq<Code>)
      returns (ok: bool)
      requires UniqueIds(n) && i < |Children(n)| && |frags| == i
      requires GenChildren(n, i, d, ctr0) == Some((codes, labeller.counter))
      requires Visited(Children(n), frags, codes)
      modifies this, labeller
      ensures ok <==> GenChildren(n, i + 1, d, ctr0).Some?
      ensures ok ==> var c := Children(n)[i];
                     && c.id in codeMap && fresh(codeMap[c.id])
                     && GenChildren(n, i + 1, d, ctr0) == Some((codes + [codeMap[c.id].Snapshot()], labeller.counter))
      ensures Visited(Children(n), frags, codes)
      ensures forall k :: k in old(codeMap) && k !in Ids(n) ==> k in codeMap && codeMap[k] == old(codeMap[k])
      decreases n, 0, 0, i, 0
    {
      var cs := Children(n);
      assert cs[i] in cs;
      assert Ids(cs[i]) <= Ids(n);
      ok := Visit(cs[i]);
      assert Visited(cs, frags, codes) by {
        forall j | 0 <= j < i
          ensures cs[j].id in codeMap && codeMap[cs[j].id] == frags[j] && frags[j].Snapshot() == codes[j]
        {
          assert cs[j] in cs;
          assert Ids(cs[j]) !! Ids(cs[i]);
        }
      }
    }

    /** The next child's fragment extends what the loop has visited. */
    lemma {:induction false} ExtendVisited(cs: seq<Node>, frags: seq<Fragment>, codes: seq<Code>, next: Fragment)
      requires Visited(cs, frags, codes) && |frags| < |cs|
      requires cs[|frags|].id in codeMap && codeMap[cs[|frags|].id] == next
      ensures Visited(cs, frags + [next], codes + [next.Snapshot()])
    {
      var frags', codes' := frags + [next], codes + [next.Snapshot()];
      forall j | 0 <= j < |frags'|
        ensures cs[j].id in codeMap && codeMap[cs[j].id] == frags'[j] && frags'[j].Snapshot() == codes'[j]
      {
        if j < |frags| {
          assert frags'[j] == frags[j] && codes'[j] == codes[j];
        }
      }
    }

    /** The node's own visit, once its children have their code. */
    method LeaveNode(n: Node, ghost codes: seq<Code>) returns (ok: bool)
      requires Ready(n, codes)
      modifies this, labeller, ChildFragments(n)
      ensures var r := Leave(n, codes, d, old(labeller.counter));
              && (ok <==> r.Some?)
              && (ok ==> n.id in codeMap && fresh(codeMap[n.id])
                         && codeMap[n.id].Snapshot() == r.value.0 && labeller.counter == r.value.1)
      ensures forall k :: k in old(codeMap) && k != n.id ==> k in codeMap && codeMap[k] == old(codeMap[k])
    {
      match n
      case Program(_, _, _) =>
        ok := LeaveBlock(n, codes);
      case MainBlock(_, _, _) =>
        ok := LeaveBlock(n, codes);
      case PrintStatement(_, _, _) =>
        ok := LeavePrint(n, codes);
      case Declaration(_, _, _, _) =>
        ok := LeaveAssignment(n, codes);
      case LetStatement(_, _, _, _) =>
        ok := LeaveAssignment(n, codes);
      case BinaryOperator(_, _, _, _) =>
        ok := LeaveOperator(n, codes);
      case UnaryOperator(_, _, _) =>
        // no visitor for unary operators: the default leave rule fails
        ok := false;
      case _ =>
        ok := VisitLeaf(n);
    }

    /** The leaf visitors. */
    method VisitLeaf(n: Node) returns (ok: bool)
      requires IsLeaf(n)
      modifies this, labeller
      ensures var r := LeafCode(n, d, old(labeller.counter));
              && (ok <==> r.Some?)
              && (ok ==> n.id in codeMap && fresh(codeMap[n.id])
                         && codeMap[n.id].Snapshot() == r.value.0 && labeller.counter == r.value.1)
      ensures forall k :: k in old(codeMap) && k != n.id ==> k in codeMap && codeMap[k] == old(codeMap[k])
    {
      match n
      case BooleanConstant(_, _) =>
        NewCode(n, GeneratesValue);
        code.Add(Instr(PushI, IntOperand(if BooleanConstantNode.GetValue(n) then 1 else 0)));
        ok := true;
      case Identifier(id, _) =>
        NewCode(n, GeneratesAddress);
        if id !in d.bindings {
          return false;
        }
        code.AddAll(d.generateAddress(d.bindings[id]));
        ok := true;
      case IntegerConstant(_, _, v) =>
        NewCode(n, GeneratesValue);
        code.Add(Instr(PushI, IntOperand(v)));
        ok := true;
      case FloatConstant(_, tok) =>
        NewCode(n, GeneratesValue);
        code.Add(Instr(PushF, FloatOperand(tok.lexeme)));
        ok := true;
      case CharacterConstant(_, _, c) =>
        NewCode(n, GeneratesValue);
        code.Add(Instr(PushI, IntOperand(c as int)));
        ok := true;
      case StringConstant(_, _, s) =>
        var stringLabel := labeller.NewLabel(StringLabelPrefix, "");
        NewCode(n, GeneratesValue);
        code.Add(OpTo(DLabel, stringLabel));
        code.Add(Instr(DataS, StringOperand(s)));
        code.Add(OpTo(PushD, stringLabel));
        ok := true;
      case Newline(_, _) =>
        NewCode(n, GeneratesVoid);
        code.Add(OpTo(PushD, Runtime(NewlinePrintFormat)));
        code.Add(Op(Printf));
        ok := true;
      case Separator(_, _) =>
        NewCode(n, GeneratesVoid);
        code.Add(OpTo(PushD, Runtime(SeparatorPrintFormat)));
        code.Add(Op(Printf));
        ok := true;
      case ErrorNode(_, _) =>
        // no visitor for error nodes: the node is left without code
        ok := false;
    }

    /** visitLeave for the program and main-block nodes. */
    method LeaveBlock(n: Node, ghost codes: seq<Code>) returns (ok: bool)
      requires n.Program? || n.MainBlock?
      requires Ready(n, codes)
      modifies this
      ensures var r := Leave(n, codes, d, old(labeller.counter));
              && (ok <==> r.Some?)
              && (ok ==> n.id in codeMap && fresh(codeMap[n.id])
                         && codeMap[n.id].Snapshot() == r.value.0 && labeller.counter == r.value.1)
      ensures forall k :: k in old(codeMap) && k != n.id ==> k in codeMap && codeMap[k] == old(codeMap[k])
    {
      var cs := n.children;
      NewCode(n, GeneratesVoid);
      for i := 0 to |cs|
        invariant fresh(code) && code.kind == GeneratesVoid
        invariant codeMap == old(codeMap)[n.id := code]
        invariant BlockCode(codes[..i]) == Some(code.instrs)
      {
        assert cs[i] in cs;
        var childCode := RemoveVoidCode(cs[i]);
        if childCode == null {
          assert codes[..i + 1][..i] == codes[..i];
          BlockCodeFailureSticks(codes, i + 1);
          return false;
        }
        code.Append(childCode);
        assert codes[..i + 1][..i] == codes[..i];
      }
      assert codes[..|cs|] == codes;
      ok := true;
    }

    /** visitLeave for print statements. */
    method LeavePrint(n: Node, ghost codes: seq<Code>) returns (ok: bool)
      requires n.PrintStatement? && Ready(n, codes)
      modifies this, labeller, ChildFragments(n)
      ensures var r := Leave(n, codes, d, old(labeller.counter));
              && (ok <==> r.Some?)
              && (ok ==> n.id in codeMap && fresh(codeMap[n.id])
                         && codeMap[n.id].Snapshot() == r.value.0 && labeller.counter == r.value.1)
      ensures forall k :: k in old(codeMap) && k != n.id ==> k in codeMap && codeMap[k] == old(codeMap[k])
    {
      ghost var ctr0 := labeller.counter;
      ghost var frags := ChildFragments(n);
      NewCode(n, GeneratesVoid);
      ok := PrintChildren(n, codes, frags);
      assert n.children == Children(n);
    }

    /** The print visitor's loop over its children, into the fresh `code`. */
    method PrintChildren(n: Node, ghost codes: seq<Code>, ghost frags: set<Fragment>) returns (ok: bool)
      requires n.PrintStatement? && |codes| == |n.children|
      requires code != null && code !in frags && code.kind == GeneratesVoid && code.instrs == []
      requires forall j :: 0 <= j < |codes| ==> n.children[j].id in codeMap
      requires forall j :: 0 <= j < |codes| ==> codeMap[n.children[j].id] in frags
      requires forall j :: 0 <= j < |codes| ==> codeMap[n.children[j].id].Snapshot() == codes[j]
      requires forall j, k :: 0 <= j < k < |codes| ==> codeMap[n.children[j].id] != codeMap[n.children[k].id]
      modifies code, labeller, frags
      ensures var r := PrintItems(n.children, codes, d, old(labeller.counter));
              && (ok <==> r.Some?)
              && (ok ==> code.Snapshot() == Code(GeneratesVoid, r.value.0) && labeller.counter == r.value.1)
    {
      ghost var ctr0 := labeller.counter;
      var cs := n.children;
      for i := 0 to |cs|
        invariant code.kind == GeneratesVoid
        invariant PrintItems(cs[..i], codes[..i], d, ctr0) == Some((code.instrs, labeller.counter))
        invariant forall j :: i <= j < |cs| ==> codeMap[cs[j].id].Snapshot() == codes[j]
      {
        PrintItemsStep(cs, codes, d, ctr0, i, code.instrs, labeller.counter);
        ghost var fi := codeMap[cs[i].id];
        ok := PrintChild(cs[i], codes[i]);
        if !ok {
          PrintItemsFailureSticks(cs, codes, d, ctr0, i + 1);
          return;
        }
        forall j | i < j < |cs| ensures codeMap[cs[j].id].Snapshot() == codes[j] {
          assert codeMap[cs[j].id] != fi;
        }
      }
      assert cs[..|cs|] == cs && codes[..|cs|] == codes;
      ok := true;
    }

    /** One pass of the print visitor's loop: newline and separator code is
        appended as it is, any other child through appendPrintCode. */
    method PrintChild(child: Node, ghost c: Code) returns (ok: bool)
      requires code != null && child.id in codeMap && codeMap[child.id] != code
      requires codeMap[child.id].Snapshot() == c
      modifies code, codeMap[child.id], labeller
      ensures var r := PrintItem(child, c, d, old(labeller.counter));
              && (ok <==> r.Some?)
              && (ok ==> code.instrs == old(code.instrs) + r.value.0 && labeller.counter == r.value.1)
      ensures code.kind == old(code.kind)
    {
      if child.Newline? || child.Separator? {
        var childCode := RemoveVoidCode(child);
        if childCode == null {
          return false;
        }
        code.Append(childCode);
        ok := true;
      } else {
        ok := AppendPrintCode(child);
      }
    }

    /** appendPrintCode: the child's value, its string form if it is a
        boolean, then the format for its type and a printf. */
    method AppendPrintCode(child: Node) returns (ok: bool)
      requires code != null && child.id in codeMap && codeMap[child.id] != code
      requires !child.Newline? && !child.Separator?
      modifies code, codeMap[child.id], labeller
      ensures var r := PrintItem(child, old(codeMap[child.id].Snapshot()), d, old(labeller.counter));
              && (ok <==> r.Some?)
              && (ok ==> code.instrs == old(code.instrs) + r.value.0 && labeller.counter == r.value.1)
      ensures code.kind == old(code.kind)
    {
      var format := PrintFormat(TypeOf(d, child));
      if format.None? {
        return false;
      }
      var value := RemoveValueCode(child);
      if value == null {
        return false;
      }
      AppendPrintValue(child, value, format.value);
      ok := true;
    }

    /** A printed value's code, its boolean-to-string diamond, then the
        format string and the call to printf. */
    method AppendPrintValue(child: Node, value: Fragment, format: RuntimeSymbol)
      requires code != null && value != code
      modifies code, labeller
      ensures code.kind == old(code.kind)
      ensures var convert := if TypeOf(d, child) == Some(Boolean) then BooleanToString(old(labeller.counter) + 1) else [];
              code.instrs == old(code.instrs) + (value.instrs + convert + [OpTo(PushD, Runtime(format)), Op(Printf)])
      ensures labeller.counter == if TypeOf(d, child) == Some(Boolean) then old(labeller.counter) + 1
                                  else old(labeller.counter)
    {
      ghost var head, v := code.instrs, value.instrs;
      code.Append(value);
      ConvertToStringIfBoolean(child);
      ghost var convert := if TypeOf(d, child) == Some(Boolean) then BooleanToString(old(labeller.counter) + 1) else [];
      assert code.instrs == head + v + convert;
      code.Add(OpTo(PushD, Runtime(format)));
      code.Add(Op(Printf));
      assert code.instrs == head + (v + convert + [OpTo(PushD, Runtime(format)), Op(Printf)]);
    }

    /** convertToStringIfBoolean: the true/false string diamond, for booleans only. */
    method ConvertToStringIfBoolean(n: Node)
      requires code != null
      modifies code, labeller
      ensures code.kind == old(code.kind)
      ensures TypeOf(d, n) == Some(Boolean) ==>
                code.instrs == old(code.instrs) + BooleanToString(old(labeller.counter) + 1)
                && labeller.counter == old(labeller.counter) + 1
      ensures TypeOf(d, n) != Some(Boolean) ==>
                code.instrs == old(code.instrs) && labeller.counter == old(labeller.counter)
    {
      if TypeOf(d, n) != Some(Boolean) {
        return;
      }
      var trueLabel := labeller.NewLabel(PrintTruePrefix, "");
      var endLabel := labeller.NewLabelSameNumber(PrintJoinPrefix, "");
      code.Add(OpTo(JumpTrue, trueLabel));
      code.Add(OpTo(PushD, Runtime(BooleanFalseString)));
      code.Add(OpTo(Jump, endLabel));
      code.Add(OpTo(Label, trueLabel));
      code.Add(OpTo(PushD, Runtime(BooleanTrueString)));
      code.Add(OpTo(Label, endLabel));
    }

    /** visitLeave for declarations and let statements. */
    method LeaveAssignment(n: Node, ghost codes: seq<Code>) returns (ok: bool)
      requires (n.Declaration? || n.LetStatement?) && Ready(n, codes)
      modifies this, ChildFragments(n)
      ensures var r := AssignmentCode(n, codes, d);
              && (ok <==> r.Some?)
              && (ok ==> n.id in codeMap && fresh(codeMap[n.id]) && codeMap[n.id].Snapshot() == r.value)
      ensures forall k :: k in old(codeMap) && k != n.id ==> k in codeMap && codeMap[k] == old(codeMap[k])
    {
      assert Children(n)[0] == n.target && Children(n)[1] == n.init;
      NewCode(n, GeneratesVoid);
      var lvalue := RemoveAddressCode(n.target);
      if lvalue == null {
        return false;
      }
      var rvalue := RemoveValueCode(n.init);
      if rvalue == null {
        return false;
      }
      ghost var target, value := lvalue.instrs, rvalue.instrs;
      code.Append(lvalue);
      code.Append(rvalue);
      assert code.instrs == target + value;
      var store := StoreOpcode(TypeOf(d, n));
      if store.None? {
        return false;
      }
      code.Add(Op(store.value));
      ok := true;
    }

    /** visitLeave for binary operators: comparison or arithmetic. */
    method LeaveOperator(n: Node, ghost codes: seq<Code>) returns (ok: bool)
      requires n.BinaryOperator? && Ready(n, codes)
      modifies this, labeller, ChildFragments(n)
      ensures var r := Leave(n, codes, d, old(labeller.counter));
              && (ok <==> r.Some?)
              && (ok ==> n.id in codeMap && fresh(codeMap[n.id])
                         && codeMap[n.id].Snapshot() == r.value.0 && labeller.counter == r.value.1)
      ensures forall k :: k in old(codeMap) && k != n.id ==> k in codeMap && codeMap[k] == old(codeMap[k])
    {
      match n.tok.lextant
      case Some(Punctuation(p)) =>
        if IsComparisonOperator(L.Punctuation(p)) {
          ok := LeaveComparison(n, p, codes);
        } else {
          ok := LeaveArithmetic(n, p, codes);
        }
      case _ =>
        // a keyword operator gets no code; a missing lextant is a failed cast
        ok := false;
    }

    /** The two operands' fragments: distinct, in the frame, and holding `codes`. */
    lemma {:induction false} OperandFragments(n: Node, codes: seq<Code>) returns (f1: Fragment, f2: Fragment)
      requires n.BinaryOperator? && Ready(n, codes)
      ensures n.left.id in codeMap && n.right.id in codeMap
      ensures f1 == codeMap[n.left.id] && f2 == codeMap[n.right.id] && f1 != f2
      ensures f1 in ChildFragments(n) && f2 in ChildFragments(n)
      ensures n.left.id != n.id && n.right.id != n.id
      ensures f1.Snapshot() == codes[0] && f2.Snapshot() == codes[1]
    {
      var cs := Children(n);
      assert cs[0] == n.left && cs[1] == n.right;
      assert n.left in cs && n.right in cs;
      f1, f2 := codeMap[n.left.id], codeMap[n.right.id];
    }

    /** visitNormalBinaryOperatorNode. */
    method LeaveArithmetic(n: Node, p: L.Punctuator, ghost codes: seq<Code>) returns (ok: bool)
      requires n.BinaryOperator? && IsArithmetic(p) && Ready(n, codes)
      modifies this, ChildFragments(n)
      ensures var r := ArithmeticCode(n, p, codes, d);
              && (ok <==> r.Some?)
              && (ok ==> n.id in codeMap && fresh(codeMap[n.id]) && codeMap[n.id].Snapshot() == r.value)
      ensures forall k :: k in old(codeMap) && k != n.id ==> k in codeMap && codeMap[k] == old(codeMap[k])
    {
      ghost var f1, f2 := OperandFragments(n, codes);
      NewCode(n, GeneratesValue);
      var arg1, arg2 := RemoveOperandValues(n);
      if arg1 == null || arg2 == null {
        return false;
      }
      EmitArithmetic(n, p, arg1, arg2);
      ok := true;
    }

    /** Appends both operands' value code, the divide-by-zero jump where the
        check fires, and the operator's opcode (a null entry where the
        operand types have none). */
    method EmitArithmetic(n: Node, p: L.Punctuator, arg1: Fragment, arg2: Fragment)
      requires n.BinaryOperator? && IsArithmetic(p)
      requires code != null && code != arg1 && code != arg2
      modifies code
      ensures code.kind == old(code.kind)
      ensures code.instrs == old(code.instrs) + arg1.instrs + arg2.instrs + ArithmeticTail(n, p, d)
    {
      var rightChildValue := RightValue(n.right);
      code.Append(arg1);
      code.Append(arg2);
      if n.tok.lexeme == L.PunctuatorLexeme(L.Divide) && rightChildValue == 0.0 {
        code.Add(DivideByZeroJump);
      }
      var opcode := OpcodeForOperator(p, TypeOf(d, n.left), TypeOf(d, n.right));
      code.Add(if opcode.Some? then Op(opcode.value) else NullOpcode);
    }

    /** visitComparisonOperatorNode. */
    method LeaveComparison(n: Node, p: L.Punctuator, ghost codes: seq<Code>) returns (ok: bool)
      requires n.BinaryOperator? && !IsArithmetic(p) && Ready(n, codes)
      modifies this, labeller, ChildFragments(n)
      ensures var r := ComparisonCode(n, p, codes, d, old(labeller.counter));
              && (ok <==> r.Some?)
              && (ok ==> n.id in codeMap && fresh(codeMap[n.id])
                         && codeMap[n.id].Snapshot() == r.value.0 && labeller.counter == r.value.1)
      ensures forall k :: k in old(codeMap) && k != n.id ==> k in codeMap && codeMap[k] == old(codeMap[k])
    {
      ghost var f1, f2 := OperandFragments(n, codes);
      ghost var v1 := ValueOf(codes[0], TypeOf(d, n.left));
      ghost var v2 := ValueOf(codes[1], TypeOf(d, n.right));
      var arg1, arg2 := RemoveOperandValues(n);
      if arg1 == null || arg2 == null {
        assert v1.None? || v2.None?;
        return false;
      }
      assert v1 == Some(arg1.Snapshot()) && v2 == Some(arg2.Snapshot());
      ok := BuildComparison(n, p, codes, arg1, arg2);
    }

    /** With both operands' values in hand: the labels, the same-value
        decision, then the node's new fragment. */
    method BuildComparison(n: Node, p: L.Punctuator, ghost codes: seq<Code>, arg1: Fragment, arg2: Fragment)
      returns (ok: bool)
      requires n.BinaryOperator? && !IsArithmetic(p) && |codes| == 2
      requires ValueOf(codes[0], TypeOf(d, n.left)) == Some(arg1.Snapshot())
      requires ValueOf(codes[1], TypeOf(d, n.right)) == Some(arg2.Snapshot())
      modifies this, labeller
      ensures var r := ComparisonCode(n, p, codes, d, old(labeller.counter));
              && (ok <==> r.Some?)
              && (ok ==> fresh(code) && codeMap == old(codeMap)[n.id := code]
                         && code.Snapshot() == r.value.0 && labeller.counter == r.value.1)
      ensures !ok ==> codeMap == old(codeMap)
    {
      var ls := NewCompareLabels();
      var leftLexeme := n.left.tok.lexeme;
      var rightLexeme := n.right.tok.lexeme;
      var same := SameLiteralValue(TypeOf(d, n.left), leftLexeme, rightLexeme);
      if same.None? {
        return false;
      }
      NewComparisonCode(n, ls, arg1, arg2, p, same.value);
      ComparisonCodeOfValues(n, p, codes, d, old(labeller.counter), old(arg1.Snapshot()), old(arg2.Snapshot()));
      ok := true;
    }

    /** The node's new value fragment: both operands' values, then the test
        `same` selects, between the six labels of `ls`. */
    method NewComparisonCode(n: Node, ls: CompareLabels, arg1: Fragment, arg2: Fragment, p: L.Punctuator,
                             same: bool)
      requires n.BinaryOperator? && !IsArithmetic(p)
      modifies this
      ensures fresh(code) && codeMap == old(codeMap)[n.id := code]
      ensures code.Snapshot() == Code(GeneratesValue, ComparisonInstrs(n, p, d, ls, same, arg1.instrs, arg2.instrs))
    {
      NewCode(n, GeneratesValue);
      EmitComparison(ls, arg1, arg2, p, TypeOf(d, n.left), TypeOf(d, n.right), n.left.tok.lexeme,
                     n.right.tok.lexeme, same);
    }

    /** The two operands' value code, the left one first; `null` for both
        where either has none. */
    method RemoveOperandValues(n: Node) returns (arg1: Fragment?, arg2: Fragment?)
      requires n.BinaryOperator? && n.left.id in codeMap && n.right.id in codeMap
      requires codeMap[n.left.id] != codeMap[n.right.id]
      modifies codeMap[n.left.id], codeMap[n.right.id]
      ensures var v1 := ValueOf(old(codeMap[n.left.id].Snapshot()), TypeOf(d, n.left));
              var v2 := ValueOf(old(codeMap[n.right.id].Snapshot()), TypeOf(d, n.right));
              && (arg1 != null && arg2 != null <==> v1.Some? && v2.Some?)
              && (arg1 != null && arg2 != null ==>
                    && arg1 == codeMap[n.left.id] && arg2 == codeMap[n.right.id]
                    && arg1.Snapshot() == v1.value && arg2.Snapshot() == v2.value)
    {
      arg1 := RemoveValueCode(n.left);
      if arg1 == null {
        return null, null;
      }
      ghost var v1 := arg1.Snapshot();
      arg2 := RemoveValueCode(n.right);
      if arg2 == null {
        return null, null;
      }
      assert arg1.Snapshot() == v1;
    }

    /** The body of a comparison's fragment: both operands under their
        labels, the test, and the trailer. */
    method EmitComparison(ls: CompareLabels, arg1: Fragment, arg2: Fragment, p: L.Punctuator,
                          lt: Option<PrimitiveType>, rt: Option<PrimitiveType>, left: string, right: string,
                          same: bool)
      requires code != null && code != arg1 && code != arg2 && !IsArithmetic(p)
      modifies code
      ensures code.kind == old(code.kind)
      ensures code.instrs == old(code.instrs)
                             + ComparisonLayout(ls, arg1.instrs, arg2.instrs,
                                                ComparisonTest(p, lt, rt, left, right, same, ls.yes, ls.no))
    {
      ghost var start := code.instrs;
      code.Add(OpTo(Label, ls.start));
      code.Append(arg1);
      code.Add(OpTo(Label, ls.arg2));
      code.Append(arg2);
      code.Add(OpTo(Label, ls.sub));
      ghost var head := code.instrs;
      assert head == start + ([OpTo(Label, ls.start)] + arg1.instrs + [OpTo(Label, ls.arg2)] + arg2.instrs
                              + [OpTo(Label, ls.sub)]);
      EmitTest(p, lt, rt, left, right, same, ls.yes, ls.no);
      EmitTrailer(ls);
      assert code.instrs == head + ComparisonTest(p, lt, rt, left, right, same, ls.yes, ls.no) + ComparisonTrailer(ls);
    }

    /** The six labels of a comparison: one new number, then the same number
        under each of the other prefixes. */
    method NewCompareLabels() returns (ls: CompareLabels)
      modifies labeller
      ensures labeller.counter == old(labeller.counter) + 1
      ensures ls == CompareLabelsNumbered(labeller.counter)
    {
      var startLabel := labeller.NewLabel("-compare-arg1-", "");
      var arg2Label := labeller.NewLabelSameNumber("-compare-arg2-", "");
      var subLabel := labeller.NewLabelSameNumber("-compare-sub-", "");
      var trueLabel := labeller.NewLabelSameNumber("-compare-true-", "");
      var falseLabel := labeller.NewLabelSameNumber("-compare-false-", "");
      var joinLabel := labeller.NewLabelSameNumber("-compare-join-", "");
      ls := CompareLabels(startLabel, arg2Label, subLabel, trueLabel, falseLabel, joinLabel);
    }

    /** The true and false paths of a comparison and their join. */
    method EmitTrailer(ls: CompareLabels)
      requires code != null
      modifies code
      ensures code.kind == old(code.kind)
      ensures code.instrs == old(code.instrs) + ComparisonTrailer(ls)
    {
      code.Add(OpTo(Label, ls.yes));
      code.Add(Instr(PushI, IntOperand(1)));
      code.Add(OpTo(Jump, ls.join));
      code.Add(OpTo(Label, ls.no));
      code.Add(Instr(PushI, IntOperand(0)));
      code.Add(OpTo(Jump, ls.join));
      code.Add(OpTo(Label, ls.join));
    }

    /** The operator- and type-directed test of a comparison. */
    method EmitTest(p: L.Punctuator, lt: Option<PrimitiveType>, rt: Option<PrimitiveType>,
                    left: string, right: string, same: bool, yes: LabelName, no: LabelName)
      requires code != null && !IsArithmetic(p)
      modifies code
      ensures code.kind == old(code.kind)
      ensures code.instrs == old(code.instrs) + ComparisonTest(p, lt, rt, left, right, same, yes, no)
    {
      if p == L.Greater {
        EmitGreaterTest(lt, rt, yes, no);
      } else if p == L.GreaterOrEqual {
        EmitGreaterOrEqualTest(lt, rt, same, yes, no);
      } else if p == L.Equal {
        EmitEqualTest(lt, rt, left, right, yes, no);
      } else if p == L.NotEqual {
        EmitNotEqualTest(lt, rt, left, right, yes, no);
      } else if p == L.Lesser {
        EmitLesserTest(lt, rt, yes, no);
      } else {
        EmitLesserOrEqualTest(lt, rt, same, yes, no);
      }
    }

    /** Three instructions in a row: an operation, a conditional jump and
        the jump of the other outcome, as each comparison test emits them. */
    method EmitThree(a: Instr, b: Instr, c: Instr)
      requires code != null
      modifies code
      ensures code.kind == old(code.kind)
      ensures code.instrs == old(code.instrs) + [a, b, c]
    {
      code.Add(a);
      code.Add(b);
      code.Add(c);
    }

    method EmitGreaterTest(lt: Option<PrimitiveType>, rt: Option<PrimitiveType>, yes: LabelName, no: LabelName)
      requires code != null
      modifies code
      ensures code.kind == old(code.kind)
      ensures code.instrs == old(code.instrs) + GreaterTest(lt, rt, yes, no)
    {
      if (lt == Some(Integer) && rt == Some(Integer)) || lt == Some(Character) {
        EmitThree(Op(Subtract), OpTo(JumpPos, yes), OpTo(Jump, no));
      } else if lt == Some(Float) {
        EmitThree(Op(FSubtract), OpTo(JumpFPos, yes), OpTo(Jump, no));
      }
    }

    method EmitGreaterOrEqualTest(lt: Option<PrimitiveType>, rt: Option<PrimitiveType>, same: bool,
                                  yes: LabelName, no: LabelName)
      requires code != null
      modifies code
      ensures code.kind == old(code.kind)
      ensures code.instrs == old(code.instrs) + GreaterOrEqualTest(lt, rt, same, yes, no)
    {
      if lt == Some(Integer) && rt == Some(Integer) {
        EmitThree(Op(Subtract), OpTo(if same then JumpFalse else JumpPos, yes), OpTo(Jump, no));
      } else if lt == Some(Float) {
        EmitThree(Op(FSubtract), OpTo(if same then JumpFZero else JumpFPos, yes), OpTo(Jump, no));
      } else if lt == Some(Character) {
        EmitThree(Op(Subtract), OpTo(if same then JumpFalse else JumpPos, yes), OpTo(Jump, no));
      }
    }

    method EmitEqualTest(lt: Option<PrimitiveType>, rt: Option<PrimitiveType>, left: string, right: string,
                         yes: LabelName, no: LabelName)
      requires code != null
      modifies code
      ensures code.kind == old(code.kind)
      ensures code.instrs == old(code.instrs) + EqualTest(lt, rt, left, right, yes, no)
    {
      if (lt == Some(Integer) && rt == Some(Integer)) || lt == Some(Character) {
        EmitThree(Op(Subtract), OpTo(JumpFalse, yes), OpTo(Jump, no));
      } else if lt == Some(Float) {
        EmitThree(Op(FSubtract), OpTo(JumpFZero, yes), OpTo(Jump, no));
      } else if lt == Some(String) {
        if '"' in left || '"' in right {
          code.Add(Op(Subtract));
          if left == right {
            code.Add(OpTo(JumpFalse, yes));
          } else {
            code.Add(OpTo(Jump, no));
          }
        } else {
          code.Add(Op(BEqual));
          if left == right {
            code.Add(OpTo(JumpTrue, yes));
          } else {
            code.Add(OpTo(Jump, no));
          }
        }
      } else if lt == Some(Boolean) {
        EmitThree(Op(BEqual), OpTo(JumpTrue, yes), OpTo(Jump, no));
      }
    }

    method EmitNotEqualTest(lt: Option<PrimitiveType>, rt: Option<PrimitiveType>, left: string, right: string,
                            yes: LabelName, no: LabelName)
      requires code != null
      modifies code
      ensures code.kind == old(code.kind)
      ensures code.instrs == old(code.instrs) + NotEqualTest(lt, rt, left, right, yes, no)
    {
      if (lt == Some(Integer) && rt == Some(Integer)) || lt == Some(Character) {
        EmitThree(Op(Subtract), OpTo(JumpFalse, no), OpTo(Jump, yes));
      } else if lt == Some(Float) {
        EmitThree(Op(FSubtract), OpTo(JumpFZero, no), OpTo(Jump, yes));
      } else if lt == Some(String) {
        if '"' in left || '"' in right {
          EmitThree(Op(Subtract), OpTo(JumpPos, no), OpTo(Jump, yes));
        } else {
          EmitThree(Op(Subtract), OpTo(JumpNeg, yes), OpTo(Jump, no));
        }
      } else if lt == Some(Boolean) {
        EmitThree(Op(BEqual), OpTo(JumpFalse, yes), OpTo(Jump, no));
      }
    }

    method EmitLesserTest(lt: Option<PrimitiveType>, rt: Option<PrimitiveType>, yes: LabelName, no: LabelName)
      requires code != null
      modifies code
      ensures code.kind == old(code.kind)
      ensures code.instrs == old(code.instrs) + LesserTest(lt, rt, yes, no)
    {
      if (lt == Some(Integer) && rt == Some(Integer)) || lt == Some(Character) {
        EmitThree(Op(Subtract), OpTo(JumpNeg, yes), OpTo(Jump, no));
      } else if lt == Some(Float) {
        EmitThree(Op(FSubtract), OpTo(JumpFNeg, yes), OpTo(Jump, no));
      }
    }

    method EmitLesserOrEqualTest(lt: Option<PrimitiveType>, rt: Option<PrimitiveType>, same: bool,
                                 yes: LabelName, no: LabelName)
      requires code != null
      modifies code
      ensures code.kind == old(code.kind)
      ensures code.instrs == old(code.instrs) + LesserOrEqualTest(lt, rt, same, yes, no)
    {
      if lt == Some(Integer) && rt == Some(Integer) {
        EmitThree(Op(Subtract), OpTo(if same then JumpFalse else JumpNeg, yes), OpTo(Jump, no));
      } else if lt == Some(Float) {
        EmitThree(Op(FSubtract), OpTo(if same then JumpFZero else JumpFNeg, yes), OpTo(Jump, no));
      } else if lt == Some(Character) {
        EmitThree(Op(Subtract), OpTo(if same then JumpFalse else JumpNeg, yes), OpTo(Jump, no));
      }
    }

    /** removeRootCode. */
    method RemoveRootCode(tree: Node) returns (frag: Fragment?)
      ensures frag == (if tree.id in codeMap then codeMap[tree.id] else null)
    {
      frag := GetAndRemoveCode(tree);
    }
  }

  /** The generator object: the tree's root and the labeller it numbers
      labels with (process-wide in the source, so shared by every run). */
  class Generator {
    const root: Node
    const labeller: Labeller

    constructor(root: Node, labeller: Labeller)
      ensures this.root == root && this.labeller == labeller
    {
      this.root := root;
      this.labeller := labeller;
    }

    /** makeASM: the runtime environment, the global data block, then the
        program; `null` where generation fails. */
    method MakeAsm(environment: seq<Instr>, rootScope: Scope?, d: Decoration) returns (asm: Fragment?)
      requires UniqueIds(root)
      modifies labeller
      ensures var g := Gen(root, d, old(labeller.counter));
              && (asm != null <==> rootScope != null && g.Some?)
              && (asm != null ==> fresh(asm) && asm.kind == GeneratesVoid
                                  && asm.instrs == AsmLayout(environment, rootScope.allocatedSize, g.value.0.instrs)
                                  && labeller.counter == g.value.1)
    {
      var code := new Fragment(GeneratesVoid);
      code.AddAll(environment);
      var globals := GlobalVariableBlockAsm(rootScope);
      if globals == null {
        return null;
      }
      code.Append(globals);
      ghost var head := code.instrs;
      assert head == environment + [OpTo(DLabel, Runtime(GlobalMemoryBlock)), Instr(DataZ, IntOperand(rootScope.allocatedSize))];
      var program := ProgramAsm(d);
      if program == null {
        return null;
      }
      code.Append(program);
      asm := code;
    }

    /** globalVariableBlockASM: the program scope's storage, zero-filled. */
    method GlobalVariableBlockAsm(rootScope: Scope?) returns (code: Fragment?)
      ensures code != null <==> rootScope != null
      ensures code != null ==>
                fresh(code)
                && code.instrs == [OpTo(DLabel, Runtime(GlobalMemoryBlock)), Instr(DataZ, IntOperand(rootScope.allocatedSize))]
    {
      if rootScope == null {
        return null;
      }
      code := new Fragment(GeneratesVoid);
      code.Add(OpTo(DLabel, Runtime(GlobalMemoryBlock)));
      code.Add(Instr(DataZ, IntOperand(rootScope.allocatedSize)));
    }

    /** programASM: the main label, the root's code, and a halt. */
    method ProgramAsm(d: Decoration) returns (code: Fragment?)
      requires UniqueIds(root)
      modifies labeller
      ensures var g := Gen(root, d, old(labeller.counter));
              && (code != null <==> g.Some?)
              && (code != null ==> fresh(code)
                                   && code.instrs == [OpTo(Label, Runtime(MainProgramLabel))] + g.value.0.instrs + [Op(Halt)]
                                   && labeller.counter == g.value.1)
    {
      var body := ProgramCode(d);
      if body == null {
        return null;
      }
      ghost var instrs := body.instrs;
      assert instrs == Gen(root, d, old(labeller.counter)).value.0.instrs;
      code := new Fragment(GeneratesVoid);
      code.Add(OpTo(Label, Runtime(MainProgramLabel)));
      code.Append(body);
      code.Add(Op(Halt));
      assert code.instrs == [OpTo(Label, Runtime(MainProgramLabel))] + instrs + [Op(Halt)];
    }

    /** programCode: one code visitor over the whole tree. */
    method ProgramCode(d: Decoration) returns (code: Fragment?)
      requires UniqueIds(root)
      modifies labeller
      ensures var g := Gen(root, d, old(labeller.counter));
              && (code != null <==> g.Some?)
              && (code != null ==> fresh(code) && code.Snapshot() == g.value.0 && labeller.counter == g.value.1)
    {
      var visitor := new CodeVisitor(d, labeller);
      var ok := visitor.Visit(root);
      if !ok {
        return null;
      }
      code := visitor.RemoveRootCode(root);
    }
  }
}
