/** Bindings and the program scope. The Scope and Binding classes themselves
    are not part of this model; this is the behaviour the passes rely on:
    a binding records a name, a type and a storage offset, and a scope hands
    out offsets one after another, each sized to the type's width. */
module SymbolTable {
  import opened Wrappers
  import opened Types

  datatype Binding = Binding(name: string, typ: PrimitiveType, offset: nat)

  /** Total width of a sequence of bindings. */
  function SumWidths(bs: seq<Binding>): nat {
    if bs == [] then 0 else SumWidths(bs[..|bs| - 1]) + Width(bs[|bs| - 1].typ)
  }

  /** Each binding starts where the ones created before it end. */
  ghost predicate Packed(bs: seq<Binding>) {
    forall i :: 0 <= i < |bs| ==> bs[i].offset == SumWidths(bs[..i])
  }

  lemma {:induction false} SumWidthsMonotone(bs: seq<Binding>, i: nat, j: nat)
    requires i <= j <= |bs|
    ensures SumWidths(bs[..i]) <= SumWidths(bs[..j])
    decreases j - i
  {
    if i < j {
      SumWidthsMonotone(bs, i, j - 1);
      assert bs[..j][..j - 1] == bs[..j - 1];
    }
  }

  lemma SumWidthsStep(bs: seq<Binding>, i: nat)
    requires i < |bs|
    ensures SumWidths(bs[..i + 1]) == SumWidths(bs[..i]) + Width(bs[i].typ)
  {
    assert bs[..i + 1][..i] == bs[..i];
  }

  /** Storage allocation never overlaps: of two bindings of one scope, the
      earlier one ends before the later one starts, and every binding lies
      inside the scope's allocated size. */
  lemma {:induction false} StorageDisjoint(bs: seq<Binding>, i: nat, j: nat)
    requires Packed(bs) && i < j < |bs|
    ensures bs[i].offset + Width(bs[i].typ) <= bs[j].offset
    ensures bs[j].offset + Width(bs[j].typ) <= SumWidths(bs)
  {
    assert bs[i].offset == SumWidths(bs[..i]) && bs[j].offset == SumWidths(bs[..j]);
    SumWidthsGap(bs, i, j);
    SumWidthsGap(bs, j, |bs|);
    assert bs[..|bs|] == bs;
  }

  /** A binding ends no later than the total width of any longer prefix. */
  lemma SumWidthsGap(bs: seq<Binding>, i: nat, j: nat)
    requires i < j <= |bs|
    ensures SumWidths(bs[..i]) + Width(bs[i].typ) <= SumWidths(bs[..j])
  {
    SumWidthsStep(bs, i);
    SumWidthsMonotone(bs, i + 1, j);
  }

  /** Appending a binding at the current size keeps a sequence packed. */
  lemma PackedAppend(bs: seq<Binding>, b: Binding)
    requires Packed(bs) && b.offset == SumWidths(bs)
    ensures Packed(bs + [b]) && SumWidths(bs + [b]) == SumWidths(bs) + Width(b.typ)
  {
    var cs := bs + [b];
    assert cs[..|cs| - 1] == bs;
    forall i | 0 <= i < |cs| ensures cs[i].offset == SumWidths(cs[..i]) {
      if i < |bs| { assert cs[..i] == bs[..i]; }
    }
  }

  class Scope {
    var table: map<string, Binding>
    var allocatedSize: nat
    var isOpen: bool
    ghost var created: seq<Binding>

    /** The size is the total width of all bindings ever created (a
        redeclared name keeps its old storage), offsets are packed, and the
        table maps each name to one of those bindings. */
    ghost predicate Valid()
      reads this
    {
      && allocatedSize == SumWidths(created)
      && Packed(created)
      && (forall name :: name in table ==> table[name] in created && table[name].name == name)
    }

    /** Scope.createProgramScope. */
    constructor CreateProgramScope()
      ensures Valid() && isOpen
      ensures table == map[] && created == [] && allocatedSize == 0
    {
      table := map[];
      allocatedSize := 0;
      isOpen := true;
      created := [];
    }

    /** createBinding: the next free offset, sized to the type; the name now
        resolves to the new binding (a previous one is replaced). */
    method CreateBinding(name: string, t: PrimitiveType) returns (b: Binding)
      requires Valid()
      modifies this
      ensures Valid()
      ensures b == Binding(name, t, old(allocatedSize))
      ensures table == old(table)[name := b] && created == old(created) + [b]
      ensures allocatedSize == old(allocatedSize) + Width(t) && isOpen == old(isOpen)
    {
      b := Binding(name, t, allocatedSize);
      PackedAppend(created, b);
      table := table[name := b];
      created := created + [b];
      allocatedSize := allocatedSize + Width(t);
    }

    /** Lookup of a name in the scope. */
    method FindBinding(name: string) returns (r: Option<Binding>)
      requires Valid()
      ensures r.Some? <==> name in table
      ensures r.Some? ==> r.value == table[name] && r.value.name == name && r.value in created
    {
      if name in table {
        r := Some(table[name]);
      } else {
        r := None;
      }
    }

    /** leave: the scope is closed; its bindings and size stay available to
        the code generator. */
    method Leave()
      modifies this
      ensures !isOpen
      ensures table == old(table) && created == old(created) && allocatedSize == old(allocatedSize)
    {
      isOpen := false;
    }
  }
}
