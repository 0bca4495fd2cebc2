/** The reference IR executor (src/recompiler/r5900_ir_executor.cpp). */
module Executor {
  import opened Words
  import opened Ir
  import opened Validation
  import opened GuestState

  datatype ExecutionError =
    | NoError | MalformedInstructionError | InvalidRegisterError | UnsupportedOpcodeError

  function MapValidationFailure(error: ValidationError): ExecutionError {
    match error
    case MalformedInstruction => MalformedInstructionError
    case InvalidRegister => InvalidRegisterError
    case UnsupportedOpcode => UnsupportedOpcodeError
    case Valid => NoError
  }

  function NormalizeZero(s: State): State {
    s.(gpr := s.gpr[0 := ZERO_GPR])
  }

  function ReadOperandValue(operand: Operand, s: State): U64
    requires WordSource(operand)
  {
    if operand.kind == Immediate then ToU64(operand.immediate) else s.gpr[operand.index].low64
  }

  function SignExtendWord(value: U32): U64 {
    if And32(value, 0x8000_0000) != 0 then Words.Or64(0xFFFF_FFFF_0000_0000, value) else value
  }

  function PackedLane(value: GprValue, lane: nat): U32
    requires lane < 4
  {
    if lane < 2 then ToU32(Shr(value.low64, lane * 32)) else ToU32(Shr(value.high64, (lane - 2) * 32))
  }

  /** value & ~(0xffffffff << shift) | lane_value << shift, in one half. */
  function SetHalf(half: U64, shift: nat, laneValue: U32): U64 {
    var mask := ToU64(-1 - Shl(0xFFFF_FFFF, shift));
    Words.Or64(Words.And64(half, mask), ToU64(Shl(laneValue, shift)))
  }

  function SetPackedLane(value: GprValue, lane: nat, laneValue: U32): GprValue
    requires lane < 4
  {
    if lane < 2 then value.(low64 := SetHalf(value.low64, lane * 32, laneValue))
    else value.(high64 := SetHalf(value.high64, (lane - 2) * 32, laneValue))
  }

  function SaturatingAddU32(lhs: U32, rhs: U32): U32 {
    var sum := lhs + rhs;
    if sum > 0xFFFF_FFFF then 0xFFFF_FFFF else sum
  }

  /** The four-lane loop from the given lane on. */
  function AddLanes(lhs: GprValue, rhs: GprValue, lane: nat, acc: GprValue): GprValue
    requires lane <= 4
    decreases 4 - lane
  {
    if lane == 4 then acc
    else AddLanes(lhs, rhs, lane + 1,
                  SetPackedLane(acc, lane, SaturatingAddU32(PackedLane(lhs, lane), PackedLane(rhs, lane))))
  }

  function SetGprLow64(s: State, index: nat, value: U64): State
    requires index < 32
  {
    if index == 0 then s else s.(gpr := s.gpr[index := s.gpr[index].(low64 := value)])
  }

  /** The effect of one well-shaped instruction. */
  function Step(fadd: F32Add, ir: IrInstruction, s: State): State
    requires WellShaped(ir)
  {
    match ir.opcode
    case Nop => s
    case AddWordSignExtend =>
      var lhs := ToU32(ReadOperandValue(ir.inputs[0], s));
      var rhs := ToU32(ReadOperandValue(ir.inputs[1], s));
      SetGprLow64(s, ir.destination.value.index, SignExtendWord(ToU32(lhs + rhs)))
    case Or64 =>
      SetGprLow64(s, ir.destination.value.index,
                  Words.Or64(ReadOperandValue(ir.inputs[0], s), ReadOperandValue(ir.inputs[1], s)))
    case And64 =>
      SetGprLow64(s, ir.destination.value.index,
                  Words.And64(s.gpr[ir.inputs[0].index].low64, ToU64(ir.inputs[1].immediate)))
    case LoadUpperImmediateSignExtend =>
      SetGprLow64(s, ir.destination.value.index,
                  SignExtendWord(ToU32(ir.inputs[0].immediate % 0x1_0000 * 0x1_0000)))
    case MoveGprLow64 =>
      var value := s.gpr[ir.inputs[0].index].low64;
      (match ir.destination.value.kind
       case Hi => s.(hi := value)
       case Lo => s.(lo := value)
       case Hi1 => s.(hi1 := value)
       case Lo1 => s.(lo1 := value)
       case _ => s)
    case ComputeMtsah =>
      var source := ToU32(s.gpr[ir.inputs[0].index].low64);
      var immediate := ToU32(ir.inputs[1].immediate);
      s.(sa := ToU32(Shl(Xor32(And32(source, 7), And32(immediate, 7)), 1)))
    case AddPackedU32Saturate128 =>
      var result := AddLanes(s.gpr[ir.inputs[0].index], s.gpr[ir.inputs[1].index], 0, ZERO_GPR);
      if ir.destination.value.index == 0 then s
      else s.(gpr := s.gpr[ir.destination.value.index := result])
    case MoveBits32 =>
      var raw := ToU32(s.gpr[ir.inputs[0].index].low64);
      if ir.destination.value.kind == FprDest then s.(fpr := s.fpr[ir.destination.value.index := raw])
      else s.(fcr31 := raw)
    case AddF32ToAccumulator =>
      s.(fpAcc := fadd(s.fpr[ir.inputs[0].index], s.fpr[ir.inputs[1].index]))
  }

  datatype ExecutionResult = ExecutionResult(error: ExecutionError, state: State)

  /** The instruction loop: the first invalid instruction stops it, keeping
      what ran before. */
  function ExecuteFrom(fadd: F32Add, irs: seq<IrInstruction>, s: State): ExecutionResult {
    if |irs| == 0 then ExecutionResult(NoError, NormalizeZero(s))
    else if Validate(irs[0]) != Valid then
      ExecutionResult(MapValidationFailure(Validate(irs[0])), NormalizeZero(s))
    else
      ValidIffWellShaped(irs[0]);
      ExecuteFrom(fadd, irs[1..], Step(fadd, irs[0], s))
  }

  /** execute_r5900_ir as a function of the incoming state. */
  function Execute(fadd: F32Add, irs: seq<IrInstruction>, s: State): ExecutionResult {
    ExecuteFrom(fadd, irs, NormalizeZero(s))
  }

  // ---------------------------------------------------------------- meaning of the helpers

  /** The mask-and-or sign extension is two's-complement sign extension. */
  lemma SignExtendWordMeaning(value: U32)
    ensures SignExtendWord(value) == ToU64(if value < 0x8000_0000 then value else value - 0x1_0000_0000)
  {
    hide BitAnd, BitOr, Shl, Shr, LowBits;
    Pow2Values();
    ShiftMeaning(1, 31);
    ShiftMeaning(value, 31);
    BitAndShifted(value, 1, 31);
    BitAndLowMask(Shr(value, 31), 1);
    ShiftMeaning(Shr(value, 31) % 2, 31);
    ShiftMeaning(0xFFFF_FFFF, 32);
    BitOrDisjoint(0xFFFF_FFFF, value, 32);
  }

  lemma Shifts32(a: U64)
    ensures Shl(a, 0) == a && Shr(a, 0) == a
    ensures Shl(a, 32) == a * 0x1_0000_0000
    ensures Shr(a, 32) == a / 0x1_0000_0000
  {
    Pow2Values();
    ShiftMeaning(a, 32);
  }

  lemma SetLowHalf(half: U64, laneValue: U32)
    ensures SetHalf(half, 0, laneValue) == half / 0x1_0000_0000 * 0x1_0000_0000 + laneValue
  {
    hide BitAnd, BitOr, Shl, Shr, Pow2;
    Pow2Values();
    Shifts32(0xFFFF_FFFF);
    Shifts32(laneValue);
    Shifts32(half);
    Shifts32(half / 0x1_0000_0000);
    ReplaceLowBits(half, 0xFFFF_FFFF_0000_0000, laneValue, 32, 32);
  }

  lemma SetHighHalf(half: U64, laneValue: U32)
    ensures SetHalf(half, 32, laneValue) == half % 0x1_0000_0000 + 0x1_0000_0000 * laneValue
  {
    hide BitAnd, BitOr, Shl, Shr, Pow2;
    Pow2Values();
    Shifts32(0xFFFF_FFFF);
    Shifts32(laneValue);
    BitAndLowMask(half, 32);
    BitOrDisjoint(laneValue, half % 0x1_0000_0000, 32);
  }

  lemma PackedLaneMeaning(value: GprValue)
    ensures PackedLane(value, 0) == value.low64 % 0x1_0000_0000
    ensures PackedLane(value, 1) == value.low64 / 0x1_0000_0000
    ensures PackedLane(value, 2) == value.high64 % 0x1_0000_0000
    ensures PackedLane(value, 3) == value.high64 / 0x1_0000_0000
  {
    Shifts32(value.low64);
    Shifts32(value.high64);
  }

  function LaneSum(lhs: GprValue, rhs: GprValue, lane: nat): U32
    requires lane < 4
  {
    SaturatingAddU32(PackedLane(lhs, lane), PackedLane(rhs, lane))
  }

  /** The packed add saturates each of the four 32-bit lanes on its own. */
  lemma AddLanesMeaning(lhs: GprValue, rhs: GprValue)
    ensures var r := AddLanes(lhs, rhs, 0, ZERO_GPR);
            && r.low64 == LaneSum(lhs, rhs, 0) + 0x1_0000_0000 * LaneSum(lhs, rhs, 1)
            && r.high64 == LaneSum(lhs, rhs, 2) + 0x1_0000_0000 * LaneSum(lhs, rhs, 3)
  {
    var l0, l1 := LaneSum(lhs, rhs, 0), LaneSum(lhs, rhs, 1);
    var l2, l3 := LaneSum(lhs, rhs, 2), LaneSum(lhs, rhs, 3);
    LanePair(l0, l1);
    LanePair(l2, l3);
    AddLanesUnrolled(lhs, rhs);
  }

  lemma AddLanesUnrolled(lhs: GprValue, rhs: GprValue)
    ensures var a1 := SetPackedLane(ZERO_GPR, 0, LaneSum(lhs, rhs, 0));
            var a2 := SetPackedLane(a1, 1, LaneSum(lhs, rhs, 1));
            var a3 := SetPackedLane(a2, 2, LaneSum(lhs, rhs, 2));
            AddLanes(lhs, rhs, 0, ZERO_GPR) == SetPackedLane(a3, 3, LaneSum(lhs, rhs, 3))
  {
    var a1 := SetPackedLane(ZERO_GPR, 0, LaneSum(lhs, rhs, 0));
    var a2 := SetPackedLane(a1, 1, LaneSum(lhs, rhs, 1));
    var a3 := SetPackedLane(a2, 2, LaneSum(lhs, rhs, 2));
    var a4 := SetPackedLane(a3, 3, LaneSum(lhs, rhs, 3));
    assert AddLanes(lhs, rhs, 3, a3) == AddLanes(lhs, rhs, 4, a4) == a4;
    assert AddLanes(lhs, rhs, 1, a1) == AddLanes(lhs, rhs, 2, a2) == AddLanes(lhs, rhs, 3, a3);
  }

  lemma LanePair(low: U32, high: U32)
    ensures SetHalf(SetHalf(0, 0, low), 32, high) == low + 0x1_0000_0000 * high
  {
    SetLowHalf(0, low);
    SetHighHalf(low, high);
  }

  // ---------------------------------------------------------------- whole runs

  /** GPR0 reads zero after every run, whatever came in and however it ended. */
  lemma {:induction false} GprZeroStaysZero(fadd: F32Add, irs: seq<IrInstruction>, s: State)
    ensures ExecuteFrom(fadd, irs, s).state.gpr[0] == ZERO_GPR
    decreases |irs|
  {
    if |irs| != 0 && Validate(irs[0]) == Valid {
      ValidIffWellShaped(irs[0]);
      GprZeroStaysZero(fadd, irs[1..], Step(fadd, irs[0], s));
    }
  }

  /** Instructions never write GPR0. */
  lemma StepKeepsGprZero(fadd: F32Add, ir: IrInstruction, s: State)
    requires WellShaped(ir)
    ensures Step(fadd, ir, s).gpr[0] == s.gpr[0]
  {
  }

  /** Running a concatenation is running its parts one after the other: the
      normalisation of GPR0 between them is absorbed. */
  lemma {:induction false} ExecuteConcat(fadd: F32Add, a: seq<IrInstruction>, b: seq<IrInstruction>, s: State)
    requires Execute(fadd, a, s).error == NoError
    ensures Execute(fadd, a + b, s) == Execute(fadd, b, Execute(fadd, a, s).state)
  {
    ExecuteFromConcat(fadd, a, b, NormalizeZero(s));
  }

  lemma {:induction false} ExecuteFromConcat(fadd: F32Add, a: seq<IrInstruction>, b: seq<IrInstruction>, s: State)
    requires s.gpr[0] == ZERO_GPR && ExecuteFrom(fadd, a, s).error == NoError
    ensures ExecuteFrom(fadd, a + b, s) == ExecuteFrom(fadd, b, NormalizeZero(ExecuteFrom(fadd, a, s).state))
    decreases |a|
  {
    if |a| == 0 {
      assert a + b == b;
      assert NormalizeZero(s) == s by {
        assert s.gpr[0 := ZERO_GPR] == s.gpr;
      }
    } else {
      ValidIffWellShaped(a[0]);
      StepKeepsGprZero(fadd, a[0], s);
      ExecuteFromConcat(fadd, a[1..], b, Step(fadd, a[0], s));
      assert (a + b)[1..] == a[1..] + b;
    }
  }

  /** The error of a run is that of the first invalid instruction, and does not
      depend on the state. */
  function FirstError(irs: seq<IrInstruction>): ValidationError {
    if |irs| == 0 then Valid
    else if Validate(irs[0]) != Valid then Validate(irs[0])
    else FirstError(irs[1..])
  }

  lemma {:induction false} ExecuteReportsFirstError(fadd: F32Add, irs: seq<IrInstruction>, s: State)
    ensures ExecuteFrom(fadd, irs, s).error == MapValidationFailure(FirstError(irs))
    decreases |irs|
  {
    if |irs| != 0 && Validate(irs[0]) == Valid {
      ValidIffWellShaped(irs[0]);
      ExecuteReportsFirstError(fadd, irs[1..], Step(fadd, irs[0], s));
    }
  }

  /** An invalid instruction stops the run there: what ran before it stays, what follows
      it does not matter. */
  lemma {:induction false} InvalidStopsThere(fadd: F32Add, before: seq<IrInstruction>, invalid: IrInstruction,
                                             rest: seq<IrInstruction>, s: State)
    requires Execute(fadd, before, s).error == NoError && Validate(invalid) != Valid
    ensures Execute(fadd, before + ([invalid] + rest), s) ==
            ExecutionResult(MapValidationFailure(Validate(invalid)), Execute(fadd, before, s).state)
  {
    ExecuteConcat(fadd, before, [invalid] + rest, s);
    GprZeroStaysZero(fadd, before, NormalizeZero(s));
    var after := Execute(fadd, before, s).state;
    assert after.gpr[0 := ZERO_GPR] == after.gpr;
    assert NormalizeZero(after) == after;
  }

  // ---------------------------------------------------------------- the executor in place

  method PackedAddSaturate(lhs: GprValue, rhs: GprValue) returns (result: GprValue)
    ensures result == AddLanes(lhs, rhs, 0, ZERO_GPR)
  {
    result := ZERO_GPR;
    for lane := 0 to 4
      invariant AddLanes(lhs, rhs, lane, result) == AddLanes(lhs, rhs, 0, ZERO_GPR)
    {
      result := SetPackedLane(result, lane, SaturatingAddU32(PackedLane(lhs, lane), PackedLane(rhs, lane)));
    }
  }

  method ExecuteInstruction(fadd: F32Add, ir: IrInstruction, guest: Guest)
    requires guest.Valid() && WellShaped(ir)
    modifies guest.Repr
    ensures guest.Snapshot() == Step(fadd, ir, old(guest.Snapshot()))
  {
    hide SignExtendWord, AddLanes, BitAnd, BitOr, BitXor, Shl;
    ghost var s := guest.Snapshot();
    match ir.opcode {
      case Nop =>
      case AddWordSignExtend =>
        var lhs: int := ToU32(ReadOperandValue(ir.inputs[0], guest.Snapshot()));
        var rhs: int := ToU32(ReadOperandValue(ir.inputs[1], guest.Snapshot()));
        WriteGprLow64(guest, ir.destination.value.index, SignExtendWord(ToU32(lhs + rhs)));
      case Or64 =>
        var value := Words.Or64(ReadOperandValue(ir.inputs[0], guest.Snapshot()),
                                ReadOperandValue(ir.inputs[1], guest.Snapshot()));
        WriteGprLow64(guest, ir.destination.value.index, value);
      case And64 =>
        var value := Words.And64(guest.gpr[ir.inputs[0].index].low64, ToU64(ir.inputs[1].immediate));
        WriteGprLow64(guest, ir.destination.value.index, value);
      case LoadUpperImmediateSignExtend =>
        var word := ToU32(ir.inputs[0].immediate % 0x1_0000 * 0x1_0000);
        WriteGprLow64(guest, ir.destination.value.index, SignExtendWord(word));
      case MoveGprLow64 =>
        var value := guest.gpr[ir.inputs[0].index].low64;
        match ir.destination.value.kind {
          case Hi => guest.hi := value;
          case Lo => guest.lo := value;
          case Hi1 => guest.hi1 := value;
          case Lo1 => guest.lo1 := value;
          case _ =>
        }
      case ComputeMtsah =>
        var source := ToU32(guest.gpr[ir.inputs[0].index].low64);
        var immediate := ToU32(ir.inputs[1].immediate);
        guest.sa := ToU32(Shl(Xor32(And32(source, 7), And32(immediate, 7)), 1));
      case AddPackedU32Saturate128 =>
        var result := PackedAddSaturate(guest.gpr[ir.inputs[0].index], guest.gpr[ir.inputs[1].index]);
        if ir.destination.value.index != 0 {
          guest.gpr[ir.destination.value.index] := result;
          assert guest.gpr[..] == s.gpr[ir.destination.value.index := result];
        }
      case MoveBits32 =>
        var raw := ToU32(guest.gpr[ir.inputs[0].index].low64);
        if ir.destination.value.kind == FprDest {
          guest.fpr[ir.destination.value.index] := raw;
          assert guest.fpr[..] == s.fpr[ir.destination.value.index := raw];
        } else {
          guest.fcr31 := raw;
        }
      case AddF32ToAccumulator =>
        guest.fpAcc := fadd(guest.fpr[ir.inputs[0].index], guest.fpr[ir.inputs[1].index]);
    }
  }

  method WriteGprLow64(guest: Guest, index: nat, value: U64)
    requires guest.Valid() && index < 32
    modifies guest.gpr
    ensures guest.Snapshot() == SetGprLow64(old(guest.Snapshot()), index, value)
  {
    if index != 0 {
      ghost var before := guest.gpr[..];
      guest.gpr[index] := guest.gpr[index].(low64 := value);
      assert guest.gpr[..] == before[index := before[index].(low64 := value)];
    }
  }

  method NormalizeGuestZero(guest: Guest)
    requires guest.Valid()
    modifies guest.gpr
    ensures guest.Snapshot() == NormalizeZero(old(guest.Snapshot()))
  {
    ghost var before := guest.gpr[..];
    guest.gpr[0] := ZERO_GPR;
    assert guest.gpr[..] == before[0 := ZERO_GPR];
  }

  /** execute_r5900_ir. */
  method ExecuteR5900Ir(fadd: F32Add, irs: seq<IrInstruction>, guest: Guest) returns (error: ExecutionError)
    requires guest.Valid()
    modifies guest.Repr
    ensures ExecutionResult(error, guest.Snapshot()) == Execute(fadd, irs, old(guest.Snapshot()))
  {
    NormalizeGuestZero(guest);
    for index := 0 to |irs|
      invariant Execute(fadd, irs, old(guest.Snapshot())) == ExecuteFrom(fadd, irs[index..], guest.Snapshot())
    {
      assert irs[index..][1..] == irs[index + 1..];
      var validation := Validate(irs[index]);
      if validation != Valid {
        NormalizeGuestZero(guest);
        return MapValidationFailure(validation);
      }
      ValidIffWellShaped(irs[index]);
      ExecuteInstruction(fadd, irs[index], guest);
    }
    NormalizeGuestZero(guest);
    error := NoError;
  }
}
