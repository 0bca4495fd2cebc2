/** The guest intermediate representation (src/recompiler/r5900_ir.h). The
    enumerations carry an Unlisted constructor for values outside their
    enumerators, which the validator's default branches reject. */
module Ir {
  import opened Words
  import opened Options

  datatype Opcode =
    | Nop
    | AddWordSignExtend
    | Or64
    | And64
    | LoadUpperImmediateSignExtend
    | AddPackedU32Saturate128
    | MoveGprLow64
    | ComputeMtsah
    | MoveBits32
    | AddF32ToAccumulator
    | UnlistedOpcode(code: int)

  datatype OperandKind = Gpr | Fpr | Immediate | UnlistedOperandKind(code: int)

  datatype GprWriteMode = NoWrite | Low64PreserveUpper64 | Full128 | UnlistedWriteMode(code: int)

  datatype DestinationKind =
    | GprDest | Hi | Lo | Hi1 | Lo1 | SaDest | FprDest | Fcr31 | FpAccumulator
    | UnlistedDestinationKind(code: int)

  datatype Destination = Destination(kind: DestinationKind, index: U8)

  /** index serves both register files; immediate is the 64-bit pattern as a signed value. */
  datatype Operand = Operand(kind: OperandKind, index: U8, immediate: I64)

  datatype IrInstruction = IrInstruction(
    guestPc: U32,
    guestRaw: U32,
    opcode: Opcode,
    destination: Option<Destination>,
    writeMode: GprWriteMode,
    inputs: seq<Operand>)

  function GprOperand(index: U8): Operand { Operand(Gpr, index, 0) }

  function FprOperand(index: U8): Operand { Operand(Fpr, index, 0) }

  function ImmediateOperand(value: I64): Operand { Operand(Immediate, 0, value) }
}
