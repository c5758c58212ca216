/** Primitive types, their storage widths, and operator signatures. */
module Types {
  import opened Wrappers
  import opened Lexical

  datatype PrimitiveType = Boolean | Character | Integer | Float | String | Error

  /** Bytes a value of the type occupies: a word for integers and string
      addresses, eight bytes for floats, one byte for booleans and characters. */
  function Width(t: PrimitiveType): nat {
    match t
    case Integer => 4
    case String => 4
    case Float => 8
    case Boolean => 1
    case Character => 1
    case Error => 0
  }

  /** One legal operand-type tuple of an operator and the type it yields. */
  datatype Signature = Signature(params: seq<PrimitiveType>, result: PrimitiveType)

  /** FunctionSignatures.signaturesOf: the overload set of each operator. */
  type SignatureTable = Lextant -> seq<Signature>

  /** The first signature of `sigs` whose parameters are exactly `types`. */
  function Match(sigs: seq<Signature>, types: seq<PrimitiveType>): (r: Option<Signature>)
    ensures r.Some? <==> exists i :: 0 <= i < |sigs| && sigs[i].params == types
    ensures r.Some? ==> r.value in sigs && r.value.params == types
    ensures r.Some? ==> exists i :: 0 <= i < |sigs| && sigs[i] == r.value
                                    && forall j :: 0 <= j < i ==> sigs[j].params != types
  {
    if sigs == [] then None
    else if sigs[0].params == types then Some(sigs[0])
    else Match(sigs[1..], types)
  }

  /** FunctionSignatures.accepts: membership of the operand types in the set. */
  predicate Accepts(sigs: seq<Signature>, types: seq<PrimitiveType>) {
    Match(sigs, types).Some?
  }

  /** The result type of the matching signature; `Error` when none matches. */
  function ResultType(sigs: seq<Signature>, types: seq<PrimitiveType>): PrimitiveType {
    match Match(sigs, types)
    case Some(s) => s.result
    case None => Error
  }

  predicate IsArithmetic(p: Punctuator) {
    p == Add || p == Subtract || p == Multiply || p == Divide
  }

  predicate IsEquality(p: Punctuator) {
    p == Equal || p == NotEqual
  }

  /** The binary overload sets: arithmetic on two integers or two floats;
      every comparison on integers, floats and characters; equality and
      inequality also on strings and booleans. No other lextant has one. */
  function StandardSignatures(l: Lextant): seq<Signature> {
    match l
    case Keyword(_) => []
    case Punctuation(p) =>
      if IsArithmetic(p) then
        [Signature([Integer, Integer], Integer), Signature([Float, Float], Float)]
      else
        [Signature([Integer, Integer], Boolean), Signature([Float, Float], Boolean),
         Signature([Character, Character], Boolean)]
        + (if IsEquality(p) then
             [Signature([String, String], Boolean), Signature([Boolean, Boolean], Boolean)]
           else [])
  }

  /** `Error` matches no standard signature, so an erroneous operand is
      always rejected again by the operator that uses it. */
  lemma ErrorNeverAccepted(l: Lextant, types: seq<PrimitiveType>)
    requires Error in types
    ensures !Accepts(StandardSignatures(l), types)
  {
    var sigs := StandardSignatures(l);
    forall i | 0 <= i < |sigs| ensures sigs[i].params != types {
      assert Error !in sigs[i].params;
    }
  }

  /** An arithmetic operator accepts exactly two integers or two floats, and
      yields the operands' type. */
  lemma ArithmeticSignatures(p: Punctuator, lt: PrimitiveType, rt: PrimitiveType)
    requires IsArithmetic(p)
    ensures Accepts(StandardSignatures(Punctuation(p)), [lt, rt])
            <==> lt == rt && (lt == Integer || lt == Float)
    ensures Accepts(StandardSignatures(Punctuation(p)), [lt, rt])
            ==> ResultType(StandardSignatures(Punctuation(p)), [lt, rt]) == lt
  {
    var sigs := StandardSignatures(Punctuation(p));
    if lt == rt && lt == Integer {
      assert sigs[0].params == [lt, rt];
    } else if lt == rt && lt == Float {
      assert sigs[1].params == [lt, rt];
    } else {
      forall i | 0 <= i < |sigs| ensures sigs[i].params != [lt, rt] {
        assert sigs[i].params[0] != lt || sigs[i].params[1] != rt;
      }
    }
  }

  /** A comparison accepts two operands of one type (integer, float or
      character, and for equality and inequality also string or boolean) and
      yields a boolean. */
  lemma ComparisonSignatures(p: Punctuator, lt: PrimitiveType, rt: PrimitiveType)
    requires !IsArithmetic(p)
    ensures Accepts(StandardSignatures(Punctuation(p)), [lt, rt])
            <==> lt == rt && (lt in {Integer, Float, Character}
                              || (IsEquality(p) && lt in {String, Boolean}))
    ensures Accepts(StandardSignatures(Punctuation(p)), [lt, rt])
            ==> ResultType(StandardSignatures(Punctuation(p)), [lt, rt]) == Boolean
  {
    var sigs := StandardSignatures(Punctuation(p));
    var legal := lt == rt && (lt in {Integer, Float, Character}
                              || (IsEquality(p) && lt in {String, Boolean}));
    if legal {
      var i := match lt
        case Integer => 0 case Float => 1 case Character => 2
        case String => 3 case Boolean => 4 case Error => 0;
      assert sigs[i].params == [lt, rt];
    } else {
      forall i | 0 <= i < |sigs| ensures sigs[i].params != [lt, rt] {
        assert sigs[i].params[0] != lt || sigs[i].params[1] != rt;
      }
    }
    forall i | 0 <= i < |sigs| ensures sigs[i].result == Boolean { }
  }
}
