/** The target stack machine's instruction stream as the generator builds it:
    opcodes with optional operands, labels, and code fragments tagged with
    what they leave on the stack. The machine's semantics is not modelled. */
module Asm {
  /** The opcodes the generator emits. */
  datatype Opcode =
    | Label | DLabel | DataZ | DataS
    | PushI | PushF | PushD
    | Jump | JumpTrue | JumpFalse | JumpPos | JumpNeg | JumpFPos | JumpFNeg | JumpFZero
    | Add | Subtract | Multiply | Divide
    | FAdd | FSubtract | FMultiply | FDivide
    | BEqual
    | LoadI | LoadC | LoadF | StoreI | StoreC | StoreF
    | Printf | Halt

  /** The fixed names the runtime preamble defines; only their identity matters. */
  datatype RuntimeSymbol =
    | GlobalMemoryBlock | MainProgramLabel
    | IntegerPrintFormat | BooleanPrintFormat | FloatPrintFormat
    | CharacterPrintFormat | StringPrintFormat
    | NewlinePrintFormat | SeparatorPrintFormat
    | BooleanTrueString | BooleanFalseString
    | DivideByZeroRuntimeError

  /** A generated label is its prefix, the labeller's number and a suffix. */
  datatype LabelName =
    | Generated(prefix: string, number: nat, suffix: string)
    | Runtime(symbol: RuntimeSymbol)

  /** Floating-point immediates are kept as the literal's lexeme. */
  datatype Operand =
    | NoOperand
    | IntOperand(i: int)
    | FloatOperand(lexeme: string)
    | StringOperand(s: string)
    | LabelOperand(name: LabelName)

  /** `NullOpcode` is what `code.add(null)` leaves in the stream. */
  datatype Instr = Instr(opcode: Opcode, operand: Operand) | NullOpcode

  function Op(op: Opcode): Instr {
    Instr(op, NoOperand)
  }

  function OpTo(op: Opcode, l: LabelName): Instr {
    Instr(op, LabelOperand(l))
  }

  datatype CodeType = GeneratesAddress | GeneratesValue | GeneratesVoid

  /** The contents of a fragment at one moment. */
  datatype Code = Code(kind: CodeType, instrs: seq<Instr>)

  /** Bytes moved by a load or store opcode. */
  function AccessWidth(op: Opcode): nat {
    match op
    case LoadI => 4
    case StoreI => 4
    case LoadF => 8
    case StoreF => 8
    case LoadC => 1
    case StoreC => 1
    case _ => 0
  }

  /** The label generator: one counter, advanced by `NewLabel`. */
  class Labeller {
    var counter: nat

    constructor()
      ensures counter == 0
    {
      counter := 0;
    }

    /** Mints the next number under the given prefix and suffix. */
    method NewLabel(prefix: string, suffix: string) returns (l: LabelName)
      modifies this
      ensures counter == old(counter) + 1
      ensures l == Generated(prefix, counter, suffix)
    {
      counter := counter + 1;
      l := Generated(prefix, counter, suffix);
    }

    /** Reuses the most recently minted number under another prefix. */
    method NewLabelSameNumber(prefix: string, suffix: string) returns (l: LabelName)
      ensures l.Generated? && l.number == counter
      ensures l.prefix == prefix && l.suffix == suffix
    {
      l := Generated(prefix, counter, suffix);
    }
  }

  /** ASMCodeFragment: a kind tag and a growing instruction list. */
  class Fragment {
    var kind: CodeType
    var instrs: seq<Instr>

    constructor(kind: CodeType)
      ensures this.kind == kind && instrs == []
    {
      this.kind := kind;
      instrs := [];
    }

    function Snapshot(): (c: Code)
      reads this
      ensures c.kind == kind && c.instrs == instrs
    {
      Code(kind, instrs)
    }

    method Add(i: Instr)
      modifies this
      ensures instrs == old(instrs) + [i] && kind == old(kind)
    {
      instrs := instrs + [i];
    }

    /** Appends a run of instructions produced elsewhere (the runtime
        environment, a binding's address computation). */
    method AddAll(run: seq<Instr>)
      modifies this
      ensures instrs == old(instrs) + run && kind == old(kind)
    {
      instrs := instrs + run;
    }

    /** Copies the other fragment's instructions to the end of this one. */
    method Append(other: Fragment)
      modifies this
      ensures instrs == old(instrs) + old(other.instrs) && kind == old(kind)
    {
      instrs := instrs + other.instrs;
    }

    method MarkAsValue()
      modifies this
      ensures kind == GeneratesValue && instrs == old(instrs)
    {
      kind := GeneratesValue;
    }
  }
}
