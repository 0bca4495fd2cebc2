/** Structural validation of one IR instruction
    (src/recompiler/r5900_ir_validation.cpp). */
module Validation {
  import opened Ir
  import opened Options

  datatype ValidationError = Valid | MalformedInstruction | InvalidRegister | UnsupportedOpcode

  function ValidateOperand(operand: Operand): ValidationError {
    match operand.kind
    case Immediate => Valid
    case Gpr => if operand.index >= 32 then InvalidRegister else Valid
    case Fpr => if operand.index >= 32 then InvalidRegister else Valid
    case UnlistedOperandKind(_) => MalformedInstruction
  }

  /** The first failing operand decides: a bad operand before a kind not in accepted. */
  function ValidateInputs(inputs: seq<Operand>, accepted: set<OperandKind>): ValidationError {
    if |inputs| == 0 then Valid
    else if ValidateOperand(inputs[0]) != Valid then ValidateOperand(inputs[0])
    else if inputs[0].kind !in accepted then MalformedInstruction
    else ValidateInputs(inputs[1..], accepted)
  }

  function ValidateGprDestination(ir: IrInstruction, expected: GprWriteMode): ValidationError {
    if ir.destination.None? then MalformedInstruction
    else if ir.destination.value.kind != GprDest then MalformedInstruction
    else if ir.destination.value.index >= 32 then InvalidRegister
    else if ir.writeMode != expected then MalformedInstruction
    else Valid
  }

  function ValidateIntegerWrite(ir: IrInstruction): ValidationError {
    var destination := ValidateGprDestination(ir, Low64PreserveUpper64);
    if destination != Valid then destination
    else if |ir.inputs| != 2 then MalformedInstruction
    else ValidateInputs(ir.inputs, {Gpr, Immediate})
  }

  function ValidateAnd64(ir: IrInstruction): ValidationError {
    var destination := ValidateGprDestination(ir, Low64PreserveUpper64);
    if destination != Valid then destination
    else if |ir.inputs| != 2 then MalformedInstruction
    else if ValidateOperand(ir.inputs[0]) != Valid then ValidateOperand(ir.inputs[0])
    else if ValidateOperand(ir.inputs[1]) != Valid then ValidateOperand(ir.inputs[1])
    else if ir.inputs[0].kind != Gpr || ir.inputs[1].kind != Immediate then MalformedInstruction
    else Valid
  }

  function ValidateLui(ir: IrInstruction): ValidationError {
    var destination := ValidateGprDestination(ir, Low64PreserveUpper64);
    if destination != Valid then destination
    else if |ir.inputs| != 1 || ir.inputs[0].kind != Immediate then MalformedInstruction
    else Valid
  }

  function ValidatePackedU32Add(ir: IrInstruction): ValidationError {
    var destination := ValidateGprDestination(ir, Full128);
    if destination != Valid then destination
    else if |ir.inputs| != 2 then MalformedInstruction
    else ValidateInputs(ir.inputs, {Gpr})
  }

  predicate IsHiloDestination(kind: DestinationKind) {
    kind in {Hi, Lo, Hi1, Lo1}
  }

  function ValidateMoveGprLow64(ir: IrInstruction): ValidationError {
    if ir.destination.None? then MalformedInstruction
    else if !IsHiloDestination(ir.destination.value.kind) || ir.destination.value.index != 0 then
      MalformedInstruction
    else if ir.writeMode != NoWrite || |ir.inputs| != 1 then MalformedInstruction
    else ValidateInputs(ir.inputs, {Gpr})
  }

  function ValidateMtsah(ir: IrInstruction): ValidationError {
    if ir.destination.None? then MalformedInstruction
    else if ir.destination.value.kind != SaDest || ir.destination.value.index != 0 then MalformedInstruction
    else if ir.writeMode != NoWrite || |ir.inputs| != 2 then MalformedInstruction
    else if ValidateOperand(ir.inputs[0]) != Valid then ValidateOperand(ir.inputs[0])
    else if ir.inputs[0].kind != Gpr || ir.inputs[1].kind != Immediate then MalformedInstruction
    else Valid
  }

  function ValidateMoveBits32(ir: IrInstruction): ValidationError {
    if ir.destination.None? then MalformedInstruction
    else if ir.writeMode != NoWrite || |ir.inputs| != 1 then MalformedInstruction
    else if ValidateInputs(ir.inputs, {Gpr}) != Valid then ValidateInputs(ir.inputs, {Gpr})
    else match ir.destination.value.kind
      case FprDest => if ir.destination.value.index >= 32 then InvalidRegister else Valid
      case Fcr31 => if ir.destination.value.index != 0 then MalformedInstruction else Valid
      case _ => MalformedInstruction
  }

  function ValidateAddF32Accumulator(ir: IrInstruction): ValidationError {
    if ir.destination.None? then MalformedInstruction
    else if ir.destination.value.kind != FpAccumulator || ir.destination.value.index != 0 then
      MalformedInstruction
    else if ir.writeMode != NoWrite || |ir.inputs| != 2 then MalformedInstruction
    else ValidateInputs(ir.inputs, {Fpr})
  }

  /** validate_r5900_ir_instruction. */
  function Validate(ir: IrInstruction): ValidationError {
    match ir.opcode
    case Nop =>
      if ir.destination.Some? || |ir.inputs| != 0 || ir.writeMode != NoWrite then MalformedInstruction
      else Valid
    case AddWordSignExtend => ValidateIntegerWrite(ir)
    case Or64 => ValidateIntegerWrite(ir)
    case And64 => ValidateAnd64(ir)
    case LoadUpperImmediateSignExtend => ValidateLui(ir)
    case AddPackedU32Saturate128 => ValidatePackedU32Add(ir)
    case MoveGprLow64 => ValidateMoveGprLow64(ir)
    case ComputeMtsah => ValidateMtsah(ir)
    case MoveBits32 => ValidateMoveBits32(ir)
    case AddF32ToAccumulator => ValidateAddF32Accumulator(ir)
    case UnlistedOpcode(_) => UnsupportedOpcode
  }

  /** An operand naming a register of the given file. */
  predicate Names(operand: Operand, kind: OperandKind) {
    operand.kind == kind && operand.index < 32
  }

  predicate WordSource(operand: Operand) {
    Names(operand, Gpr) || operand.kind == Immediate
  }

  predicate GprTarget(ir: IrInstruction, mode: GprWriteMode) {
    && ir.destination.Some? && ir.destination.value.kind == GprDest
    && ir.destination.value.index < 32 && ir.writeMode == mode
  }

  predicate SpecialTarget(ir: IrInstruction, kinds: set<DestinationKind>) {
    && ir.destination.Some? && ir.destination.value.kind in kinds
    && ir.destination.value.index == 0 && ir.writeMode == NoWrite
  }

  /** The shapes the executor and the emitter rely on, written as one
      declarative condition per opcode. */
  predicate WellShaped(ir: IrInstruction) {
    match ir.opcode
    case Nop => ir.destination.None? && |ir.inputs| == 0 && ir.writeMode == NoWrite
    case AddWordSignExtend =>
      GprTarget(ir, Low64PreserveUpper64) && |ir.inputs| == 2 && WordSource(ir.inputs[0]) && WordSource(ir.inputs[1])
    case Or64 =>
      GprTarget(ir, Low64PreserveUpper64) && |ir.inputs| == 2 && WordSource(ir.inputs[0]) && WordSource(ir.inputs[1])
    case And64 =>
      GprTarget(ir, Low64PreserveUpper64) && |ir.inputs| == 2 && Names(ir.inputs[0], Gpr) &&
      ir.inputs[1].kind == Immediate
    case LoadUpperImmediateSignExtend =>
      GprTarget(ir, Low64PreserveUpper64) && |ir.inputs| == 1 && ir.inputs[0].kind == Immediate
    case AddPackedU32Saturate128 =>
      GprTarget(ir, Full128) && |ir.inputs| == 2 && Names(ir.inputs[0], Gpr) && Names(ir.inputs[1], Gpr)
    case MoveGprLow64 =>
      SpecialTarget(ir, {Hi, Lo, Hi1, Lo1}) && |ir.inputs| == 1 && Names(ir.inputs[0], Gpr)
    case ComputeMtsah =>
      SpecialTarget(ir, {SaDest}) && |ir.inputs| == 2 && Names(ir.inputs[0], Gpr) && ir.inputs[1].kind == Immediate
    case MoveBits32 =>
      && |ir.inputs| == 1 && Names(ir.inputs[0], Gpr)
      && (SpecialTarget(ir, {Fcr31}) ||
          (ir.destination.Some? && ir.destination.value.kind == FprDest &&
           ir.destination.value.index < 32 && ir.writeMode == NoWrite))
    case AddF32ToAccumulator =>
      SpecialTarget(ir, {FpAccumulator}) && |ir.inputs| == 2 && Names(ir.inputs[0], Fpr) && Names(ir.inputs[1], Fpr)
    case UnlistedOpcode(_) => false
  }

  /** Validation accepts exactly the well-shaped instructions. */
  lemma ValidIffWellShaped(ir: IrInstruction)
    ensures Validate(ir) == Valid <==> WellShaped(ir)
  {
    if |ir.inputs| == 1 {
      InputsOfOne(ir.inputs, {Gpr});
    } else if |ir.inputs| == 2 {
      InputsOfTwo(ir.inputs, {Gpr});
      InputsOfTwo(ir.inputs, {Fpr});
      InputsOfTwo(ir.inputs, {Gpr, Immediate});
    }
  }

  lemma InputsOfOne(inputs: seq<Operand>, accepted: set<OperandKind>)
    requires |inputs| == 1
    ensures ValidateInputs(inputs, accepted) == Valid <==>
            ValidateOperand(inputs[0]) == Valid && inputs[0].kind in accepted
  {
    assert |inputs[1..]| == 0;
  }

  lemma InputsOfTwo(inputs: seq<Operand>, accepted: set<OperandKind>)
    requires |inputs| == 2
    ensures ValidateInputs(inputs, accepted) == Valid <==>
            ValidateOperand(inputs[0]) == Valid && inputs[0].kind in accepted &&
            ValidateOperand(inputs[1]) == Valid && inputs[1].kind in accepted
  {
    InputsOfOne(inputs[1..], accepted);
  }

  // ---------------------------------------------------------------- which error

  predicate RegisterOutOfRange(operand: Operand) {
    (operand.kind == Gpr || operand.kind == Fpr) && operand.index >= 32
  }

  predicate DestinationOutOfRange(d: Destination) {
    (d.kind == GprDest || d.kind == FprDest) && d.index >= 32
  }

  predicate SomeRegisterOutOfRange(ir: IrInstruction) {
    || (exists k :: 0 <= k < |ir.inputs| && RegisterOutOfRange(ir.inputs[k]))
    || (ir.destination.Some? && DestinationOutOfRange(ir.destination.value))
  }

  function InRange(operand: Operand): Operand {
    if RegisterOutOfRange(operand) then operand.(index := 0) else operand
  }

  /** The instruction with every register that is out of range replaced by register 0. */
  function Repaired(ir: IrInstruction): IrInstruction {
    ir.(inputs := seq(|ir.inputs|, k requires 0 <= k < |ir.inputs| => InRange(ir.inputs[k])),
        destination := if ir.destination.Some? && DestinationOutOfRange(ir.destination.value)
                       then Some(ir.destination.value.(index := 0)) else ir.destination)
  }

  lemma OperandErrors(operand: Operand)
    ensures ValidateOperand(operand) == InvalidRegister <==> RegisterOutOfRange(operand)
    ensures ValidateOperand(operand) != UnsupportedOpcode
    ensures ValidateOperand(operand) == MalformedInstruction <==> operand.kind.UnlistedOperandKind?
  {
  }

  lemma {:induction false} InputErrors(inputs: seq<Operand>, accepted: set<OperandKind>)
    ensures var e := ValidateInputs(inputs, accepted);
            && e != UnsupportedOpcode
            && (e == InvalidRegister ==> exists k :: 0 <= k < |inputs| && RegisterOutOfRange(inputs[k]))
    decreases |inputs|
  {
    hide RegisterOutOfRange, ValidateOperand;
    if |inputs| > 0 {
      OperandErrors(inputs[0]);
      InputErrors(inputs[1..], accepted);
    }
  }

  /** Only an opcode outside the enumeration is unsupported; only a register out of
      range is an invalid register. */
  lemma ErrorCauses(ir: IrInstruction)
    ensures Validate(ir) == UnsupportedOpcode <==> ir.opcode.UnlistedOpcode?
    ensures Validate(ir) == InvalidRegister ==> SomeRegisterOutOfRange(ir)
  {
    hide ValidateInputs, ValidateOperand;
    InputErrors(ir.inputs, {Gpr});
    InputErrors(ir.inputs, {Fpr});
    InputErrors(ir.inputs, {Gpr, Immediate});
    if |ir.inputs| > 0 {
      OperandErrors(ir.inputs[0]);
    }
    if |ir.inputs| > 1 {
      OperandErrors(ir.inputs[1]);
    }
  }

  lemma ErrorsOfOne(inputs: seq<Operand>, accepted: set<OperandKind>)
    requires |inputs| == 1
    ensures ValidateInputs(inputs, accepted) ==
            if ValidateOperand(inputs[0]) != Valid then ValidateOperand(inputs[0])
            else if inputs[0].kind !in accepted then MalformedInstruction
            else Valid
  {
    assert |inputs[1..]| == 0;
  }

  lemma ErrorsOfTwo(inputs: seq<Operand>, accepted: set<OperandKind>)
    requires |inputs| == 2
    ensures ValidateInputs(inputs, accepted) ==
            if ValidateOperand(inputs[0]) != Valid then ValidateOperand(inputs[0])
            else if inputs[0].kind !in accepted then MalformedInstruction
            else if ValidateOperand(inputs[1]) != Valid then ValidateOperand(inputs[1])
            else if inputs[1].kind !in accepted then MalformedInstruction
            else Valid
  {
    ErrorsOfOne(inputs[1..], accepted);
  }

  /** An instruction that is well shaped but for registers out of range is reported as an
      invalid register, and one with all registers in range as malformed. */
  lemma ErrorKinds(ir: IrInstruction)
    requires !ir.opcode.UnlistedOpcode? && !WellShaped(ir)
    ensures WellShaped(Repaired(ir)) ==> Validate(ir) == InvalidRegister
    ensures !SomeRegisterOutOfRange(ir) ==> Validate(ir) == MalformedInstruction
  {
    hide ValidateInputs;
    ErrorCauses(ir);
    ValidIffWellShaped(ir);
    if |ir.inputs| == 1 {
      ErrorsOfOne(ir.inputs, {Gpr});
    } else if |ir.inputs| == 2 {
      ErrorsOfTwo(ir.inputs, {Gpr});
      ErrorsOfTwo(ir.inputs, {Fpr});
      ErrorsOfTwo(ir.inputs, {Gpr, Immediate});
    }
  }
}
