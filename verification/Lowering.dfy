/** Lowering of one decoded instruction to IR (src/recompiler/r5900_ir.cpp). */
module Lowering {
  import opened Words
  import opened Options
  import opened Ir
  import opened Validation
  import D = Decoder

  datatype LoweringResult = Lowered(instructions: seq<IrInstruction>) | UnsupportedInstruction

  function BaseInstruction(decoded: D.Decoded, guestPc: U32, opcode: Opcode): IrInstruction {
    IrInstruction(guestPc, decoded.raw, opcode, None, NoWrite, [])
  }

  function DiscardedGprZeroWrite(decoded: D.Decoded, guestPc: U32): LoweringResult {
    Lowered([BaseInstruction(decoded, guestPc, Nop)])
  }

  function WriteLow64(decoded: D.Decoded, guestPc: U32, opcode: Opcode, index: U8, inputs: seq<Operand>)
    : LoweringResult
  {
    Lowered([BaseInstruction(decoded, guestPc, opcode).(
             destination := Some(Destination(GprDest, index)),
             writeMode := Low64PreserveUpper64,
             inputs := inputs)])
  }

  function WriteSpecial(decoded: D.Decoded, guestPc: U32, opcode: Opcode, kind: DestinationKind, index: U8,
                        inputs: seq<Operand>)
    : LoweringResult
  {
    Lowered([BaseInstruction(decoded, guestPc, opcode).(
             destination := Some(Destination(kind, index)),
             inputs := inputs)])
  }

  /** The register fields of a decoded word are five bits wide. */
  predicate RegisterFields(decoded: D.Decoded) {
    decoded.rs < 32 && decoded.rt < 32 && decoded.rd < 32
  }

  /** lower_r5900_instruction. */
  function Lower(decoded: D.Decoded, guestPc: U32): (r: LoweringResult)
    ensures RegisterFields(decoded) && r.Lowered? ==> |r.instructions| == 1 && WellShaped(r.instructions[0])
  {
    match decoded.instruction
    case Nop => Lowered([BaseInstruction(decoded, guestPc, Nop)])
    case Sync => Lowered([BaseInstruction(decoded, guestPc, Nop)])
    case Addu =>
      if decoded.rd == 0 then DiscardedGprZeroWrite(decoded, guestPc)
      else WriteLow64(decoded, guestPc, AddWordSignExtend, decoded.rd,
                      [GprOperand(decoded.rs), GprOperand(decoded.rt)])
    case Addiu =>
      if decoded.rt == 0 then DiscardedGprZeroWrite(decoded, guestPc)
      else WriteLow64(decoded, guestPc, AddWordSignExtend, decoded.rt,
                      [GprOperand(decoded.rs), ImmediateOperand(decoded.SignedImmediate())])
    case Ori =>
      if decoded.rt == 0 then DiscardedGprZeroWrite(decoded, guestPc)
      else WriteLow64(decoded, guestPc, Opcode.Or64, decoded.rt,
                      [GprOperand(decoded.rs), ImmediateOperand(decoded.immediate)])
    case Andi =>
      if decoded.rt == 0 then DiscardedGprZeroWrite(decoded, guestPc)
      else WriteLow64(decoded, guestPc, Opcode.And64, decoded.rt,
                      [GprOperand(decoded.rs), ImmediateOperand(decoded.immediate)])
    case Lui =>
      if decoded.rt == 0 then DiscardedGprZeroWrite(decoded, guestPc)
      else WriteLow64(decoded, guestPc, LoadUpperImmediateSignExtend, decoded.rt,
                      [ImmediateOperand(decoded.immediate)])
    case Mthi => WriteSpecial(decoded, guestPc, MoveGprLow64, Hi, 0, [GprOperand(decoded.rs)])
    case Mtlo => WriteSpecial(decoded, guestPc, MoveGprLow64, Lo, 0, [GprOperand(decoded.rs)])
    case Mthi1 => WriteSpecial(decoded, guestPc, MoveGprLow64, Hi1, 0, [GprOperand(decoded.rs)])
    case Mtlo1 => WriteSpecial(decoded, guestPc, MoveGprLow64, Lo1, 0, [GprOperand(decoded.rs)])
    case Mtsah =>
      WriteSpecial(decoded, guestPc, ComputeMtsah, SaDest, 0,
                   [GprOperand(decoded.rs), ImmediateOperand(decoded.immediate)])
    case Padduw =>
      if decoded.rd == 0 then DiscardedGprZeroWrite(decoded, guestPc)
      else Lowered([BaseInstruction(decoded, guestPc, AddPackedU32Saturate128).(
                    destination := Some(Destination(GprDest, decoded.rd)),
                    writeMode := Full128,
                    inputs := [GprOperand(decoded.rs), GprOperand(decoded.rt)])])
    case Mtc1 => WriteSpecial(decoded, guestPc, MoveBits32, FprDest, decoded.rd, [GprOperand(decoded.rt)])
    case Ctc1 =>
      if decoded.rd != 31 then UnsupportedInstruction
      else WriteSpecial(decoded, guestPc, MoveBits32, Fcr31, 0, [GprOperand(decoded.rt)])
    case AddaS =>
      WriteSpecial(decoded, guestPc, AddF32ToAccumulator, FpAccumulator, 0,
                   [FprOperand(decoded.rd), FprOperand(decoded.rt)])
    case _ => UnsupportedInstruction
  }

  /** Whatever lowers, lowers to exactly one instruction, at the guest PC and
      with the raw word it came from, and validation accepts it: a compile
      failure can never come from a lowered instruction. */
  lemma LoweredIsOneValidInstruction(decoded: D.Decoded, guestPc: U32)
    requires RegisterFields(decoded) && Lower(decoded, guestPc).Lowered?
    ensures var irs := Lower(decoded, guestPc).instructions;
            |irs| == 1 && Validate(irs[0]) == Valid &&
            irs[0].guestPc == guestPc && irs[0].guestRaw == decoded.raw
  {
    ValidIffWellShaped(Lower(decoded, guestPc).instructions[0]);
  }
}
