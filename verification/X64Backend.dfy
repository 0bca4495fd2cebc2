/** The x86-64 code emitter (src/recompiler/windows/r5900_x64_backend.cpp):
    bytes appended to a growing buffer, up to and including the final RET. */
module X64Backend {
  import opened Words
  import opened Ir
  import opened Validation
  import opened X64Machine
  import opened StateRecord
  import Executor

  // ---------------------------------------------------------------- the intended machine code

  function OperandTo32(reg: Reg, operand: Ir.Operand): Insn
    requires WordSource(operand)
  {
    if operand.kind == Gpr then Load(W32, reg, Offset(GprLow(operand.index)))
    else MovImm32(reg, ToU32(operand.immediate))
  }

  function OperandTo64(reg: Reg, operand: Ir.Operand): Insn
    requires WordSource(operand)
  {
    if operand.kind == Gpr then Load(W64, reg, Offset(GprLow(operand.index)))
    else MovImm64(reg, ToU64(operand.immediate))
  }

  /** Writes to GPR0 are never emitted. */
  function StoreLow64(index: nat): seq<Insn>
    requires index < 32
  {
    if index == 0 then [] else [Store(W64, Rax, Offset(GprLow(index)))]
  }

  function ZeroGpr0Code(): (code: seq<Insn>)
    ensures Ret !in code
  {
    [AluRegReg(Xor, W32, Rax, Rax), Store(W64, Rax, 0), Store(W64, Rax, 8)]
  }

  function HiloSlot(kind: DestinationKind): Slot {
    match kind case Lo => LoSlot case Hi1 => Hi1Slot case Lo1 => Lo1Slot case _ => HiSlot
  }

  function LaneStore(index: nat, lane: nat): seq<Insn>
    requires index < 32 && lane < 4
  {
    if index == 0 then [] else [Store(W32, Rax, 16 * index + 4 * lane)]
  }

  /** One saturating lane: add, then OR with a mask made of the carry. */
  function LaneCode(index: nat, lane: nat): (code: seq<Insn>)
    requires index < 32 && lane < 4
    ensures Ret !in code
  {
    [MovdToReg(Rax, Xmm0), MovdToReg(Rdx, Xmm1),
     AluRegReg(Add, W32, Rax, Rdx), AluRegReg(Sbb, W32, Rdx, Rdx), AluRegReg(Or, W32, Rax, Rdx)]
    + LaneStore(index, lane)
    + (if lane != 3 then [Psrldq(Xmm0, 4), Psrldq(Xmm1, 4)] else [])
  }

  function LanesCode(index: nat, lane: nat): (code: seq<Insn>)
    requires index < 32 && lane <= 4
    ensures Ret !in code
    decreases 4 - lane
  {
    if lane == 4 then [] else LaneCode(index, lane) + LanesCode(index, lane + 1)
  }

  /** static_cast<std::uint8_t>(immediate) & 0x07. */
  function LowThreeBits(immediate: I64): U8 {
    BitAndBound(immediate % 0x100, 7);
    BitAnd(immediate % 0x100, 7)
  }

  /** The machine instructions of one IR instruction. */
  function CodeFor(ir: IrInstruction): (code: seq<Insn>)
    requires WellShaped(ir)
    ensures Ret !in code
  {
    match ir.opcode
    case Nop => []
    case AddWordSignExtend =>
      [OperandTo32(Rax, ir.inputs[0]), OperandTo32(Rdx, ir.inputs[1]), AluRegReg(Add, W32, Rax, Rdx), Cdqe]
      + StoreLow64(ir.destination.value.index)
    case Or64 =>
      [OperandTo64(Rax, ir.inputs[0]), OperandTo64(Rdx, ir.inputs[1]), AluRegReg(Or, W64, Rax, Rdx)]
      + StoreLow64(ir.destination.value.index)
    case And64 =>
      [OperandTo64(Rax, ir.inputs[0]), OperandTo64(Rdx, ir.inputs[1]), AluRegReg(And, W64, Rax, Rdx)]
      + StoreLow64(ir.destination.value.index)
    case LoadUpperImmediateSignExtend =>
      [MovImm32(Rax, ToU32(ir.inputs[0].immediate % 0x1_0000 * 0x1_0000)), Cdqe]
      + StoreLow64(ir.destination.value.index)
    case MoveGprLow64 =>
      [Load(W64, Rax, Offset(GprLow(ir.inputs[0].index))),
       Store(W64, Rax, Offset(HiloSlot(ir.destination.value.kind)))]
    case ComputeMtsah =>
      [Load(W32, Rax, Offset(GprLow(ir.inputs[0].index))),
       AluImm8(And, Rax, 7), AluImm8(Xor, Rax, LowThreeBits(ir.inputs[1].immediate)), ShlOne(Rax),
       Store(W32, Rax, Offset(SaSlot))]
    case AddPackedU32Saturate128 =>
      [MovdquLoad(Xmm0, 16 * ir.inputs[0].index), MovdquLoad(Xmm1, 16 * ir.inputs[1].index)]
      + LanesCode(ir.destination.value.index, 0)
    case MoveBits32 =>
      [Load(W32, Rax, Offset(GprLow(ir.inputs[0].index))),
       Store(W32, Rax, Offset(if ir.destination.value.kind == FprDest then FprSlot(ir.destination.value.index)
                              else Fcr31Slot))]
    case AddF32ToAccumulator =>
      [MovssLoad(Xmm0, Offset(FprSlot(ir.inputs[0].index))), AddssMem(Xmm0, Offset(FprSlot(ir.inputs[1].index))),
       MovssStore(Xmm0, Offset(FpAccSlot))]
  }

  predicate AllWellShaped(irs: seq<IrInstruction>) {
    forall ir | ir in irs :: WellShaped(ir)
  }

  function BodyCode(irs: seq<IrInstruction>): (code: seq<Insn>)
    requires AllWellShaped(irs)
    ensures Ret !in code
  {
    if |irs| == 0 then [] else CodeFor(irs[0]) + BodyCode(irs[1..])
  }

  function BlockCode(irs: seq<IrInstruction>): (code: seq<Insn>)
    requires AllWellShaped(irs)
    ensures Ret !in code
  {
    ZeroGpr0Code() + BodyCode(irs) + ZeroGpr0Code()
  }

  // ---------------------------------------------------------------- compilation result

  datatype CompileError = MalformedInstructionError | InvalidRegisterError | UnsupportedOpcodeError

  function MapValidationError(error: ValidationError): CompileError
    requires error != Valid
  {
    match error
    case MalformedInstruction => MalformedInstructionError
    case InvalidRegister => InvalidRegisterError
    case UnsupportedOpcode => UnsupportedOpcodeError
  }

  /** A compiled block is its native code. */
  datatype CompileResult = Compiled(native: seq<U8>) | CompileFailed(error: CompileError)

  lemma {:induction false} NoFirstErrorIsWellShaped(irs: seq<IrInstruction>)
    ensures Executor.FirstError(irs) == Valid <==> AllWellShaped(irs)
  {
    if |irs| > 0 {
      ValidIffWellShaped(irs[0]);
      NoFirstErrorIsWellShaped(irs[1..]);
      assert irs == [irs[0]] + irs[1..];
    }
  }

  /** compile_r5900_ir_x64, allocation succeeding: the whole vector is validated
      first, then the block is emitted. */
  function Compile(irs: seq<IrInstruction>): CompileResult {
    NoFirstErrorIsWellShaped(irs);
    if Executor.FirstError(irs) != Valid then CompileFailed(MapValidationError(Executor.FirstError(irs)))
    else Compiled(Assemble(BlockCode(irs) + [Ret]))
  }

  // ---------------------------------------------------------------- the byte emitter

  lemma {:induction false} AssembleSnoc(code: seq<Insn>, i: Insn)
    ensures Assemble(code + [i]) == Assemble(code) + Encode(i)
  {
    hide Encode;
    AssembleConcat(code, [i]);
    assert Assemble([i]) == Encode(i) + Assemble([]);
  }

  /** The byte vector; code is the instruction list its bytes encode so far. */
  class CodeBuffer {
    var bytes: seq<U8>
    ghost var code: seq<Insn>

    ghost predicate Valid()
      reads this
    {
      bytes == Assemble(code)
    }

    constructor ()
      ensures Valid() && bytes == [] && code == []
    {
      bytes := [];
      code := [];
    }

    method PushBack(b: U8)
      modifies this`bytes
      ensures bytes == old(bytes) + [b]
    {
      bytes := bytes + [b];
    }

    /** A run of push_back calls. */
    method Push(bs: seq<U8>)
      modifies this`bytes
      ensures bytes == old(bytes) + bs
    {
      for k := 0 to |bs|
        invariant bytes == old(bytes) + bs[..k]
      {
        PushBack(bs[k]);
      }
    }

    method EmitU32(value: U32)
      modifies this`bytes
      ensures bytes == old(bytes) + LeBytes(value, 4)
    {
      LeBytesAt(value, 4, 0);
      LeBytesAt(value, 4, 1);
      LeBytesAt(value, 4, 2);
      LeBytesAt(value, 4, 3);
      PushBack(ByteAt(value, 0));
      PushBack(ByteAt(value, 8));
      PushBack(ByteAt(value, 16));
      PushBack(ByteAt(value, 24));
      assert LeBytes(value, 4) == [ByteAt(value, 0), ByteAt(value, 8), ByteAt(value, 16), ByteAt(value, 24)];
    }

    method EmitU64(value: U64)
      modifies this`bytes
      ensures bytes == old(bytes) + LeBytes(value, 8)
    {
      var shift := 0;
      while shift < 64
        invariant 0 <= shift <= 64 && shift % 8 == 0
        invariant bytes == old(bytes) + LeBytes(value, 8)[..shift / 8]
      {
        LeBytesAt(value, 8, shift / 8);
        PushBack(ByteAt(value, shift));
        shift := shift + 8;
      }
    }

    /** Accounts for bytes just pushed as the encoding of i. */
    ghost method Emitted(i: Insn)
      requires bytes == Assemble(code) + Encode(i)
      modifies this`code
      ensures Valid() && code == old(code) + [i]
    {
      AssembleSnoc(code, i);
      code := code + [i];
    }

    method EmitXorEaxEax()
      requires Valid()
      modifies this
      ensures Valid() && code == old(code) + [AluRegReg(Xor, W32, Rax, Rax)]
    {
      hide Assemble;
      Push([0x31, 0xC0]);
      Emitted(AluRegReg(Xor, W32, Rax, Rax));
    }

    method EmitStoreRaxToState(disp: U32)
      requires Valid()
      modifies this
      ensures Valid() && code == old(code) + [Store(W64, Rax, disp)]
    {
      hide Assemble;
      Push([0x48, 0x89, 0x81]);
      EmitU32(disp);
      Emitted(Store(W64, Rax, disp));
    }

    method EmitStoreEaxToState(disp: U32)
      requires Valid()
      modifies this
      ensures Valid() && code == old(code) + [Store(W32, Rax, disp)]
    {
      hide Assemble;
      Push([0x89, 0x81]);
      EmitU32(disp);
      Emitted(Store(W32, Rax, disp));
    }

    method EmitLoadEaxFromState(disp: U32)
      requires Valid()
      modifies this
      ensures Valid() && code == old(code) + [Load(W32, Rax, disp)]
    {
      hide Assemble;
      Push([0x8B, 0x81]);
      EmitU32(disp);
      Emitted(Load(W32, Rax, disp));
    }

    method EmitLoadEdxFromState(disp: U32)
      requires Valid()
      modifies this
      ensures Valid() && code == old(code) + [Load(W32, Rdx, disp)]
    {
      hide Assemble;
      Push([0x8B, 0x91]);
      EmitU32(disp);
      Emitted(Load(W32, Rdx, disp));
    }

    method EmitLoadRaxFromState(disp: U32)
      requires Valid()
      modifies this
      ensures Valid() && code == old(code) + [Load(W64, Rax, disp)]
    {
      hide Assemble;
      Push([0x48, 0x8B, 0x81]);
      EmitU32(disp);
      Emitted(Load(W64, Rax, disp));
    }

    method EmitLoadRdxFromState(disp: U32)
      requires Valid()
      modifies this
      ensures Valid() && code == old(code) + [Load(W64, Rdx, disp)]
    {
      hide Assemble;
      Push([0x48, 0x8B, 0x91]);
      EmitU32(disp);
      Emitted(Load(W64, Rdx, disp));
    }

    method EmitMovEaxImm32(immediate: U32)
      requires Valid()
      modifies this
      ensures Valid() && code == old(code) + [MovImm32(Rax, immediate)]
    {
      hide Assemble;
      Push([0xB8]);
      EmitU32(immediate);
      Emitted(MovImm32(Rax, immediate));
    }

    method EmitMovEdxImm32(immediate: U32)
      requires Valid()
      modifies this
      ensures Valid() && code == old(code) + [MovImm32(Rdx, immediate)]
    {
      hide Assemble;
      Push([0xBA]);
      EmitU32(immediate);
      Emitted(MovImm32(Rdx, immediate));
    }

    method EmitMovRaxImm64(immediate: U64)
      requires Valid()
      modifies this
      ensures Valid() && code == old(code) + [MovImm64(Rax, immediate)]
    {
      hide Assemble;
      Push([0x48, 0xB8]);
      EmitU64(immediate);
      Emitted(MovImm64(Rax, immediate));
    }

    method EmitMovRdxImm64(immediate: U64)
      requires Valid()
      modifies this
      ensures Valid() && code == old(code) + [MovImm64(Rdx, immediate)]
    {
      hide Assemble;
      Push([0x48, 0xBA]);
      EmitU64(immediate);
      Emitted(MovImm64(Rdx, immediate));
    }

    method EmitCdqe()
      requires Valid()
      modifies this
      ensures Valid() && code == old(code) + [Cdqe]
    {
      hide Assemble;
      Push([0x48, 0x98]);
      Emitted(Cdqe);
    }

    method EmitOperand32ToEax(operand: Ir.Operand)
      requires Valid() && WordSource(operand)
      modifies this
      ensures Valid() && code == old(code) + [OperandTo32(Rax, operand)]
    {
      hide Assemble, Encode;
      if operand.kind == Gpr {
        EmitLoadEaxFromState(Offset(GprLow(operand.index)));
        return;
      }
      EmitMovEaxImm32(ToU32(operand.immediate));
    }

    method EmitOperand32ToEdx(operand: Ir.Operand)
      requires Valid() && WordSource(operand)
      modifies this
      ensures Valid() && code == old(code) + [OperandTo32(Rdx, operand)]
    {
      hide Assemble, Encode;
      if operand.kind == Gpr {
        EmitLoadEdxFromState(Offset(GprLow(operand.index)));
        return;
      }
      EmitMovEdxImm32(ToU32(operand.immediate));
    }

    method EmitOperand64ToRax(operand: Ir.Operand)
      requires Valid() && WordSource(operand)
      modifies this
      ensures Valid() && code == old(code) + [OperandTo64(Rax, operand)]
    {
      hide Assemble, Encode;
      if operand.kind == Gpr {
        EmitLoadRaxFromState(Offset(GprLow(operand.index)));
        return;
      }
      EmitMovRaxImm64(ToU64(operand.immediate));
    }

    method EmitOperand64ToRdx(operand: Ir.Operand)
      requires Valid() && WordSource(operand)
      modifies this
      ensures Valid() && code == old(code) + [OperandTo64(Rdx, operand)]
    {
      hide Assemble, Encode;
      if operand.kind == Gpr {
        EmitLoadRdxFromState(Offset(GprLow(operand.index)));
        return;
      }
      EmitMovRdxImm64(ToU64(operand.immediate));
    }

    method EmitZeroGpr0()
      requires Valid()
      modifies this
      ensures Valid() && code == old(code) + ZeroGpr0Code()
    {
      hide Assemble, Encode;
      EmitXorEaxEax();
      EmitStoreRaxToState(0);
      EmitStoreRaxToState(8);
    }

    method EmitStoreLow64(index: nat)
      requires Valid() && index < 32
      modifies this
      ensures Valid() && code == old(code) + StoreLow64(index)
    {
      hide Assemble, Encode;
      if index != 0 {
        EmitStoreRaxToState(Offset(GprLow(index)));
      }
    }

    method EmitRet()
      requires Valid()
      modifies this
      ensures Valid() && code == old(code) + [Ret]
    {
      hide Assemble;
      Push([0xC3]);
      Emitted(Ret);
    }

    method EmitAluRaxRdx(op: AluOp, width: Width, encoding: seq<U8>)
      requires Valid() && encoding == RexW(width) + [AluOpcode(op), 0xD0]
      modifies this
      ensures Valid() && code == old(code) + [AluRegReg(op, width, Rax, Rdx)]
    {
      hide Assemble;
      Push(encoding);
      Emitted(AluRegReg(op, width, Rax, Rdx));
    }

    method EmitAddWordSignExtend(ir: IrInstruction)
      requires Valid() && WellShaped(ir) && ir.opcode == AddWordSignExtend
      modifies this
      ensures Valid() && code == old(code) + CodeFor(ir)
    {
      hide Assemble, Encode;
      EmitOperand32ToEax(ir.inputs[0]);
      EmitOperand32ToEdx(ir.inputs[1]);
      EmitAluRaxRdx(Add, W32, [0x01, 0xD0]);
      EmitCdqe();
      EmitStoreLow64(ir.destination.value.index);
    }

    method EmitOr64(ir: IrInstruction)
      requires Valid() && WellShaped(ir) && ir.opcode == Opcode.Or64
      modifies this
      ensures Valid() && code == old(code) + CodeFor(ir)
    {
      hide Assemble, Encode;
      EmitOperand64ToRax(ir.inputs[0]);
      EmitOperand64ToRdx(ir.inputs[1]);
      EmitAluRaxRdx(Or, W64, [0x48, 0x09, 0xD0]);
      EmitStoreLow64(ir.destination.value.index);
    }

    method EmitAnd64(ir: IrInstruction)
      requires Valid() && WellShaped(ir) && ir.opcode == Opcode.And64
      modifies this
      ensures Valid() && code == old(code) + CodeFor(ir)
    {
      hide Assemble, Encode;
      EmitOperand64ToRax(ir.inputs[0]);
      EmitOperand64ToRdx(ir.inputs[1]);
      EmitAluRaxRdx(And, W64, [0x48, 0x21, 0xD0]);
      EmitStoreLow64(ir.destination.value.index);
    }

    method EmitLui(ir: IrInstruction)
      requires Valid() && WellShaped(ir) && ir.opcode == LoadUpperImmediateSignExtend
      modifies this
      ensures Valid() && code == old(code) + CodeFor(ir)
    {
      hide Assemble, Encode;
      EmitMovEaxImm32(ToU32(ir.inputs[0].immediate % 0x1_0000 * 0x1_0000));
      EmitCdqe();
      EmitStoreLow64(ir.destination.value.index);
    }

    method EmitMoveGprLow64(ir: IrInstruction)
      requires Valid() && WellShaped(ir) && ir.opcode == MoveGprLow64
      modifies this
      ensures Valid() && code == old(code) + CodeFor(ir)
    {
      hide Assemble, Encode;
      EmitLoadRaxFromState(Offset(GprLow(ir.inputs[0].index)));
      EmitStoreRaxToState(Offset(HiloSlot(ir.destination.value.kind)));
    }

    method EmitAluImm8(op: AluOp, modRm: U8, imm8: U8)
      requires Valid() && modRm == ModRegister(AluDigit(op), 0)
      modifies this
      ensures Valid() && code == old(code) + [AluImm8(op, Rax, imm8)]
    {
      hide Assemble;
      Push([0x83, modRm, imm8]);
      Emitted(AluImm8(op, Rax, imm8));
    }

    method EmitShlEax()
      requires Valid()
      modifies this
      ensures Valid() && code == old(code) + [ShlOne(Rax)]
    {
      hide Assemble;
      Push([0xD1, 0xE0]);
      Emitted(ShlOne(Rax));
    }

    method EmitMtsah(ir: IrInstruction)
      requires Valid() && WellShaped(ir) && ir.opcode == ComputeMtsah
      modifies this
      ensures Valid() && code == old(code) + CodeFor(ir)
    {
      hide Assemble, Encode;
      EmitLoadEaxFromState(Offset(GprLow(ir.inputs[0].index)));
      EmitAluImm8(And, 0xE0, 0x07);
      EmitAluImm8(Xor, 0xF0, LowThreeBits(ir.inputs[1].immediate));
      EmitShlEax();
      EmitStoreEaxToState(Offset(SaSlot));
    }

    method EmitLoadXmm0Gpr(index: nat)
      requires Valid() && index < 32
      modifies this
      ensures Valid() && code == old(code) + [MovdquLoad(Xmm0, 16 * index)]
    {
      hide Assemble;
      Push([0xF3, 0x0F, 0x6F, 0x81]);
      EmitU32(16 * index);
      Emitted(MovdquLoad(Xmm0, 16 * index));
    }

    method EmitLoadXmm1Gpr(index: nat)
      requires Valid() && index < 32
      modifies this
      ensures Valid() && code == old(code) + [MovdquLoad(Xmm1, 16 * index)]
    {
      hide Assemble;
      Push([0xF3, 0x0F, 0x6F, 0x89]);
      EmitU32(16 * index);
      Emitted(MovdquLoad(Xmm1, 16 * index));
    }

    method EmitMovdEaxXmm0()
      requires Valid()
      modifies this
      ensures Valid() && code == old(code) + [MovdToReg(Rax, Xmm0)]
    {
      hide Assemble;
      Push([0x66, 0x0F, 0x7E, 0xC0]);
      Emitted(MovdToReg(Rax, Xmm0));
    }

    method EmitMovdEdxXmm1()
      requires Valid()
      modifies this
      ensures Valid() && code == old(code) + [MovdToReg(Rdx, Xmm1)]
    {
      hide Assemble;
      Push([0x66, 0x0F, 0x7E, 0xCA]);
      Emitted(MovdToReg(Rdx, Xmm1));
    }

    method EmitShiftXmmSourcesOneLane()
      requires Valid()
      modifies this
      ensures Valid() && code == old(code) + [Psrldq(Xmm0, 4), Psrldq(Xmm1, 4)]
    {
      hide Assemble;
      Push([0x66, 0x0F, 0x73, 0xD8, 0x04]);
      Emitted(Psrldq(Xmm0, 4));
      Push([0x66, 0x0F, 0x73, 0xD9, 0x04]);
      Emitted(Psrldq(Xmm1, 4));
    }

    method EmitSbbEdxEdx()
      requires Valid()
      modifies this
      ensures Valid() && code == old(code) + [AluRegReg(Sbb, W32, Rdx, Rdx)]
    {
      hide Assemble;
      Push([0x19, 0xD2]);
      Emitted(AluRegReg(Sbb, W32, Rdx, Rdx));
    }

    method EmitPadduwLane(index: nat, lane: nat)
      requires Valid() && index < 32 && lane < 4
      modifies this
      ensures Valid() && code == old(code) + LaneCode(index, lane)
    {
      hide Assemble, Encode;
      EmitMovdEaxXmm0();
      EmitMovdEdxXmm1();
      EmitAluRaxRdx(Add, W32, [0x01, 0xD0]);
      EmitSbbEdxEdx();
      EmitAluRaxRdx(Or, W32, [0x09, 0xD0]);
      if index != 0 {
        EmitStoreEaxToState(16 * index + lane * 4);
      }
      if lane != 3 {
        EmitShiftXmmSourcesOneLane();
      }
    }

    method EmitPadduw(ir: IrInstruction)
      requires Valid() && WellShaped(ir) && ir.opcode == AddPackedU32Saturate128
      modifies this
      ensures Valid() && code == old(code) + CodeFor(ir)
    {
      hide Assemble, Encode, LaneCode;
      EmitLoadXmm0Gpr(ir.inputs[0].index);
      EmitLoadXmm1Gpr(ir.inputs[1].index);
      for lane := 0 to 4
        invariant Valid()
        invariant code + LanesCode(ir.destination.value.index, lane) == old(code) + CodeFor(ir)
      {
        EmitPadduwLane(ir.destination.value.index, lane);
      }
    }

    method EmitMoveBits32(ir: IrInstruction)
      requires Valid() && WellShaped(ir) && ir.opcode == MoveBits32
      modifies this
      ensures Valid() && code == old(code) + CodeFor(ir)
    {
      hide Assemble, Encode;
      EmitLoadEaxFromState(Offset(GprLow(ir.inputs[0].index)));
      EmitStoreEaxToState(Offset(if ir.destination.value.kind == FprDest then FprSlot(ir.destination.value.index)
                                 else Fcr31Slot));
    }

    method EmitScalar(opcode: U8, i: Insn, disp: U32)
      requires Valid()
      requires (opcode == 0x10 && i == MovssLoad(Xmm0, disp)) || (opcode == 0x58 && i == AddssMem(Xmm0, disp)) ||
               (opcode == 0x11 && i == MovssStore(Xmm0, disp))
      modifies this
      ensures Valid() && code == old(code) + [i]
    {
      hide Assemble;
      Push([0xF3, 0x0F, opcode, 0x81]);
      EmitU32(disp);
      Emitted(i);
    }

    method EmitAddF32ToAccumulator(ir: IrInstruction)
      requires Valid() && WellShaped(ir) && ir.opcode == AddF32ToAccumulator
      modifies this
      ensures Valid() && code == old(code) + CodeFor(ir)
    {
      hide Assemble, Encode;
      var lhs, rhs := Offset(FprSlot(ir.inputs[0].index)), Offset(FprSlot(ir.inputs[1].index));
      EmitScalar(0x10, MovssLoad(Xmm0, lhs), lhs);
      EmitScalar(0x58, AddssMem(Xmm0, rhs), rhs);
      EmitScalar(0x11, MovssStore(Xmm0, Offset(FpAccSlot)), Offset(FpAccSlot));
    }

    method EmitInstruction(ir: IrInstruction)
      requires Valid() && WellShaped(ir)
      modifies this
      ensures Valid() && code == old(code) + CodeFor(ir)
    {
      hide Assemble, Encode;
      match ir.opcode {
        case Nop =>
        case AddWordSignExtend => EmitAddWordSignExtend(ir);
        case Or64 => EmitOr64(ir);
        case And64 => EmitAnd64(ir);
        case LoadUpperImmediateSignExtend => EmitLui(ir);
        case MoveGprLow64 => EmitMoveGprLow64(ir);
        case ComputeMtsah => EmitMtsah(ir);
        case AddPackedU32Saturate128 => EmitPadduw(ir);
        case MoveBits32 => EmitMoveBits32(ir);
        case AddF32ToAccumulator => EmitAddF32ToAccumulator(ir);
      }
    }
  }

  /** compile_r5900_ir_x64 up to the final RET. */
  method CompileR5900IrX64(irs: seq<IrInstruction>) returns (result: CompileResult)
    ensures result == Compile(irs)
  {
    hide WellShaped, CodeFor, ZeroGpr0Code, Encode;
    for index := 0 to |irs|
      invariant Executor.FirstError(irs) == Executor.FirstError(irs[index..])
    {
      assert irs[index..][1..] == irs[index + 1..];
      if Validate(irs[index]) != Valid {
        return CompileFailed(MapValidationError(Validate(irs[index])));
      }
    }
    NoFirstErrorIsWellShaped(irs);

    var buffer := EmitBlock(irs);
    buffer.EmitRet();
    result := Compiled(buffer.bytes);
  }

  method EmitBlock(irs: seq<IrInstruction>) returns (buffer: CodeBuffer)
    requires AllWellShaped(irs)
    ensures fresh(buffer) && buffer.Valid() && buffer.code == BlockCode(irs)
  {
    hide Assemble, Encode, CodeFor, WellShaped, ZeroGpr0Code;
    buffer := new CodeBuffer();
    buffer.EmitZeroGpr0();
    for index := 0 to |irs|
      invariant fresh(buffer) && buffer.Valid()
      invariant buffer.code + BodyCode(irs[index..]) == ZeroGpr0Code() + BodyCode(irs)
    {
      assert irs[index..][1..] == irs[index + 1..];
      buffer.EmitInstruction(irs[index]);
    }
    buffer.EmitZeroGpr0();
  }
}
