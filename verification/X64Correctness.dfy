/** The compiler correctness theorem: running the emitted bytes on the machine
    has exactly the effect of the reference executor. */
module X64Correctness {
  import opened Words
  import opened Options
  import opened GuestState
  import opened Ir
  import opened Validation
  import opened X64Machine
  import opened StateRecord
  import opened X64Backend
  import Executor

  /** Executing code on m terminates in the record and changes its view to target. */
  predicate Reaches(fadd: F32Add, code: seq<Insn>, m: Machine, target: State)
    requires Ret !in code
  {
    match ExecAll(fadd, code, m)
    case None => false
    case Some(n) => |n.record| == RECORD_SIZE && View(n.record) == target
  }

  lemma ExecCons(fadd: F32Add, i: Insn, rest: seq<Insn>, m: Machine)
    requires Ret !in [i] + rest && Exec(fadd, i, m).Some?
    ensures Ret !in rest
    ensures ExecAll(fadd, [i] + rest, m) == ExecAll(fadd, rest, Exec(fadd, i, m).value)
  {
    assert ([i] + rest)[1..] == rest;
    assert forall j | j in rest :: j in [i] + rest;
  }

  /** A load of a field reads that field of the view. */
  lemma ExecLoad(fadd: F32Add, width: Width, r: Reg, slot: Slot, m: Machine)
    requires |m.record| == RECORD_SIZE && ValidSlot(slot) && Size(slot) == (if width == W32 then 4 else 8)
    ensures Exec(fadd, Load(width, r, Offset(slot)), m) == Some(SetReg(m, r, Get(View(m.record), slot)))
  {
    hide View, Get, LeValue;
    ViewGet(m.record, slot);
  }

  lemma LowWord(r: Record, slot: Slot)
    requires ValidSlot(slot) && Size(slot) == 8
    ensures LeU32(r[Offset(slot)..Offset(slot) + 4]) == ToU32(Get(View(r), slot))
  {
    hide View, Get, LeValue;
    ViewGet(r, slot);
    var b := Bytes(r, slot);
    LeU64Halves(b);
    assert r[Offset(slot)..Offset(slot) + 4] == b[..4];
  }

  /** A 32-bit load of a 64-bit field reads its low word. */
  lemma ExecLoadLow(fadd: F32Add, r: Reg, slot: Slot, m: Machine)
    requires |m.record| == RECORD_SIZE && ValidSlot(slot) && Size(slot) == 8
    ensures Exec(fadd, Load(W32, r, Offset(slot)), m) == Some(SetReg(m, r, ToU32(Get(View(m.record), slot))))
  {
    hide View, Get, LeValue;
    LowWord(m.record, slot);
  }

  /** A store of a register into a field updates that field of the view. */
  lemma ExecStore(fadd: F32Add, width: Width, r: Reg, slot: Slot, m: Machine)
    requires |m.record| == RECORD_SIZE && ValidSlot(slot) && Size(slot) == (if width == W32 then 4 else 8)
    ensures Fits(Truncate(GetReg(m, r), Size(slot)), slot)
    ensures var out := Exec(fadd, Store(width, r, Offset(slot)), m);
            && out.Some? && out.value == m.(record := out.value.record) && |out.value.record| == RECORD_SIZE
            && View(out.value.record) == Set(View(m.record), slot, Truncate(GetReg(m, r), Size(slot)))
  {
    hide View, Set, LeBytes, Patch, Truncate;
    StoreSlot(m.record, slot, GetReg(m, r));
  }

  lemma LoadOperand32(fadd: F32Add, r: Reg, operand: Ir.Operand, m: Machine)
    requires |m.record| == RECORD_SIZE && WordSource(operand)
    ensures Exec(fadd, OperandTo32(r, operand), m) ==
            Some(SetReg(m, r, ToU32(Executor.ReadOperandValue(operand, View(m.record)))))
  {
    hide View, ToU32, ToU64;
    if operand.kind == Gpr {
      ExecLoadLow(fadd, r, GprLow(operand.index), m);
    }
    ToU32OfToU64(operand.immediate);
  }

  lemma LoadOperand64(fadd: F32Add, r: Reg, operand: Ir.Operand, m: Machine)
    requires |m.record| == RECORD_SIZE && WordSource(operand)
    ensures Exec(fadd, OperandTo64(r, operand), m) ==
            Some(SetReg(m, r, Executor.ReadOperandValue(operand, View(m.record))))
  {
    hide View;
    if operand.kind == Gpr {
      ExecLoad(fadd, W64, r, GprLow(operand.index), m);
    }
  }

  lemma ExecOne(fadd: F32Add, i: Insn, m: Machine)
    requires i != Ret
    ensures ExecAll(fadd, [i], m) == Exec(fadd, i, m)
  {
  }

  lemma StoreLow64Reaches(fadd: F32Add, index: nat, m: Machine)
    requires |m.record| == RECORD_SIZE && index < 32
    ensures Ret !in StoreLow64(index)
    ensures Reaches(fadd, StoreLow64(index), m, Executor.SetGprLow64(View(m.record), index, m.rax))
  {
    hide View, Exec;
    if index != 0 {
      ExecOne(fadd, Store(W64, Rax, Offset(GprLow(index))), m);
      ExecStore(fadd, W64, Rax, GprLow(index), m);
    }
  }

  /** Two known steps at the front of a list. */
  lemma ExecTwo(fadd: F32Add, i: Insn, j: Insn, rest: seq<Insn>, m: Machine, m1: Machine, m2: Machine)
    requires i != Ret && j != Ret && Ret !in rest
    requires Exec(fadd, i, m) == Some(m1) && Exec(fadd, j, m1) == Some(m2)
    ensures Ret !in [i, j] + rest
    ensures ExecAll(fadd, [i, j] + rest, m) == ExecAll(fadd, rest, m2)
  {
    hide Exec, ExecAll;
    ExecCons(fadd, j, rest, m1);
    ExecCons(fadd, i, [j] + rest, m);
    assert [i, j] + rest == [i] + ([j] + rest);
  }

  lemma ExecAdd32(fadd: F32Add, m: Machine, lhs: U32, rhs: U32)
    requires m.rax == lhs && m.rdx == rhs
    ensures Exec(fadd, AluRegReg(Add, W32, Rax, Rdx), m) ==
            Some(m.(rax := ToU32(lhs as int + rhs), cf := lhs as int + rhs >= 0x1_0000_0000))
  {
    hide Words.And64, Words.Or64, Words.Xor64, Shl, Shr, LeBytes, LeValue, Executor.SignExtendWord;
  }

  lemma ExecCdqe(fadd: F32Add, m: Machine, word: U32)
    requires m.rax == word
    ensures Exec(fadd, Cdqe, m) == Some(m.(rax := Executor.SignExtendWord(word)))
  {
    hide Executor.SignExtendWord;
    Executor.SignExtendWordMeaning(word);
  }

  lemma AddWordSimulates(fadd: F32Add, ir: IrInstruction, m: Machine)
    requires |m.record| == RECORD_SIZE && WellShaped(ir) && ir.opcode == AddWordSignExtend
    ensures Reaches(fadd, CodeFor(ir), m, Executor.Step(fadd, ir, View(m.record)))
  {
    hide View, Exec, ExecAll, Executor.SignExtendWord, StoreLow64;
    var lhs: int := ToU32(Executor.ReadOperandValue(ir.inputs[0], View(m.record)));
    var rhs: int := ToU32(Executor.ReadOperandValue(ir.inputs[1], View(m.record)));
    var add, store := AluRegReg(Add, W32, Rax, Rdx), StoreLow64(ir.destination.value.index);
    var m1 := SetReg(m, Rax, lhs);
    var m2 := SetReg(m1, Rdx, rhs);
    LoadOperand32(fadd, Rax, ir.inputs[0], m);
    LoadOperand32(fadd, Rdx, ir.inputs[1], m1);
    ExecAdd32(fadd, m2, lhs, rhs);
    var m3 := Exec(fadd, add, m2).value;
    ExecCdqe(fadd, m3, ToU32(lhs + rhs));
    var m4 := Exec(fadd, Cdqe, m3).value;
    StoreLow64Reaches(fadd, ir.destination.value.index, m4);
    ExecTwo(fadd, add, Cdqe, store, m2, m3, m4);
    ExecTwo(fadd, OperandTo32(Rax, ir.inputs[0]), OperandTo32(Rdx, ir.inputs[1]), [add, Cdqe] + store, m, m1, m2);
    assert CodeFor(ir) == [OperandTo32(Rax, ir.inputs[0]), OperandTo32(Rdx, ir.inputs[1])] + ([add, Cdqe] + store);
  }

  lemma BitwiseSimulates(fadd: F32Add, ir: IrInstruction, m: Machine)
    requires |m.record| == RECORD_SIZE && WellShaped(ir) && (ir.opcode == Opcode.Or64 || ir.opcode == Opcode.And64)
    ensures Reaches(fadd, CodeFor(ir), m, Executor.Step(fadd, ir, View(m.record)))
  {
    hide View, ExecAll, StoreLow64, BitAnd, BitOr;
    var lhs := Executor.ReadOperandValue(ir.inputs[0], View(m.record));
    var rhs := Executor.ReadOperandValue(ir.inputs[1], View(m.record));
    var alu := AluRegReg(if ir.opcode == Opcode.Or64 then Or else And, W64, Rax, Rdx);
    var store := StoreLow64(ir.destination.value.index);
    var m1 := SetReg(m, Rax, lhs);
    var m2 := SetReg(m1, Rdx, rhs);
    LoadOperand64(fadd, Rax, ir.inputs[0], m);
    LoadOperand64(fadd, Rdx, ir.inputs[1], m1);
    var m3 := Exec(fadd, alu, m2).value;
    StoreLow64Reaches(fadd, ir.destination.value.index, m3);
    ExecCons(fadd, alu, store, m2);
    ExecTwo(fadd, OperandTo64(Rax, ir.inputs[0]), OperandTo64(Rdx, ir.inputs[1]), [alu] + store, m, m1, m2);
    assert CodeFor(ir) == [OperandTo64(Rax, ir.inputs[0]), OperandTo64(Rdx, ir.inputs[1])] + ([alu] + store);
  }

  lemma LuiSimulates(fadd: F32Add, ir: IrInstruction, m: Machine)
    requires |m.record| == RECORD_SIZE && WellShaped(ir) && ir.opcode == LoadUpperImmediateSignExtend
    ensures Reaches(fadd, CodeFor(ir), m, Executor.Step(fadd, ir, View(m.record)))
  {
    hide View, ExecAll, Executor.SignExtendWord, StoreLow64;
    var word := ToU32(ir.inputs[0].immediate % 0x1_0000 * 0x1_0000);
    var store := StoreLow64(ir.destination.value.index);
    var m1 := SetReg(m, Rax, word);
    var m2 := Exec(fadd, Cdqe, m1).value;
    Executor.SignExtendWordMeaning(word);
    StoreLow64Reaches(fadd, ir.destination.value.index, m2);
    ExecTwo(fadd, MovImm32(Rax, word), Cdqe, store, m, m1, m2);
  }

  /** A load followed by a store that ends the code. */
  lemma LoadStoreReaches(fadd: F32Add, load: Insn, width: Width, slot: Slot, m: Machine, v: U64)
    requires |m.record| == RECORD_SIZE && ValidSlot(slot) && Size(slot) == (if width == W32 then 4 else 8)
    requires load != Ret && Exec(fadd, load, m) == Some(SetReg(m, Rax, v)) && Fits(v, slot)
    ensures Ret !in [load, Store(width, Rax, Offset(slot))]
    ensures Reaches(fadd, [load, Store(width, Rax, Offset(slot))], m, Set(View(m.record), slot, v))
  {
    hide View, Exec, ExecAll, Set;
    var m1 := SetReg(m, Rax, v);
    var store := Store(width, Rax, Offset(slot));
    ExecStore(fadd, width, Rax, slot, m1);
    ExecOne(fadd, store, m1);
    ExecCons(fadd, load, [store], m);
    assert [load, store] == [load] + [store];
  }

  lemma MoveSimulates(fadd: F32Add, ir: IrInstruction, m: Machine)
    requires |m.record| == RECORD_SIZE && WellShaped(ir) && (ir.opcode == MoveGprLow64 || ir.opcode == MoveBits32)
    ensures Reaches(fadd, CodeFor(ir), m, Executor.Step(fadd, ir, View(m.record)))
  {
    hide View, Exec, ExecAll;
    var source := GprLow(ir.inputs[0].index);
    var value := View(m.record).gpr[ir.inputs[0].index].low64;
    if ir.opcode == MoveGprLow64 {
      ExecLoad(fadd, W64, Rax, source, m);
      LoadStoreReaches(fadd, Load(W64, Rax, Offset(source)), W64, HiloSlot(ir.destination.value.kind), m, value);
    } else {
      ExecLoadLow(fadd, Rax, source, m);
      var slot := if ir.destination.value.kind == FprDest then FprSlot(ir.destination.value.index) else Fcr31Slot;
      LoadStoreReaches(fadd, Load(W32, Rax, Offset(source)), W32, slot, m, ToU32(value));
    }
  }

  /** Masking to three bits before or after narrowing to a byte is the same. */
  lemma LowThreeBitsAgree(immediate: I64)
    ensures LowThreeBits(immediate) == And32(ToU32(immediate), 7)
  {
    hide BitAnd, LowBits;
    Pow2Values();
    BitAndLowMask(immediate % 0x100, 3);
    BitAndLowMask(ToU32(immediate), 3);
    ModOfMod(immediate, 0x100, 0x20);
    ModOfMod(immediate, 0x1_0000_0000, 0x2000_0000);
  }

  lemma ModOfMod(x: int, m: int, k: int)
    requires k > 0 && m == 8 * k
    ensures x % m % 8 == x % 8
  {
    var q, r := x / m, x % m;
    assert x == m * q + r;
    MulAssoc(8, k, q);
    RemainderUnique(x, 8, k * q + r / 8, r % 8);
  }

  lemma ExecLowThreeBits(fadd: F32Add, m: Machine, source: U32, imm3: U8)
    requires m.rax == source && imm3 < 8
    ensures Exec(fadd, AluImm8(And, Rax, 7), m) == Some(m.(rax := And32(source, 7), cf := false))
    ensures Exec(fadd, AluImm8(Xor, Rax, imm3), m) == Some(m.(rax := Xor32(source, imm3), cf := false))
    ensures Exec(fadd, ShlOne(Rax), m) == Some(m.(rax := ToU32(Shl(source, 1)), cf := source >= 0x8000_0000))
  {
    hide BitAnd, BitXor;
    assert Shl(source, 1) == 2 * Shl(source, 0);
  }

  /** The three register steps between the load and the store. */
  lemma ExecMtsahCore(fadd: F32Add, rest: seq<Insn>, m: Machine, source: U32, imm3: U8)
    requires m.rax == source && imm3 < 8 && Ret !in rest
    ensures var code := [AluImm8(And, Rax, 7), AluImm8(Xor, Rax, imm3)] + ([ShlOne(Rax)] + rest);
            var sa := ToU32(Shl(Xor32(And32(source, 7), imm3), 1));
            var carry := Xor32(And32(source, 7), imm3) >= 0x8000_0000;
            Ret !in code && ExecAll(fadd, code, m) == ExecAll(fadd, rest, m.(rax := sa, cf := carry))
  {
    hide Exec, ExecAll, BitAnd, BitXor, Shl;
    var low := And32(source, 7);
    var m1, m2 := m.(rax := low, cf := false), m.(rax := Xor32(low, imm3), cf := false);
    ExecLowThreeBits(fadd, m, source, imm3);
    ExecLowThreeBits(fadd, m1, low, imm3);
    ExecLowThreeBits(fadd, m2, Xor32(low, imm3), imm3);
    ExecCons(fadd, ShlOne(Rax), rest, m2);
    ExecTwo(fadd, AluImm8(And, Rax, 7), AluImm8(Xor, Rax, imm3), [ShlOne(Rax)] + rest, m, m1, m2);
  }

  lemma MtsahCodeReaches(fadd: F32Add, slot: Slot, imm3: U8, m: Machine)
    requires |m.record| == RECORD_SIZE && ValidSlot(slot) && Size(slot) == 8 && imm3 < 8
    ensures var code := [Load(W32, Rax, Offset(slot)), AluImm8(And, Rax, 7), AluImm8(Xor, Rax, imm3), ShlOne(Rax),
                         Store(W32, Rax, Offset(SaSlot))];
            var sa := ToU32(Shl(Xor32(And32(ToU32(Get(View(m.record), slot)), 7), imm3), 1));
            Ret !in code && Reaches(fadd, code, m, Set(View(m.record), SaSlot, sa))
  {
    hide View, Get, Set, Exec, ExecAll, Xor32, And32, Shl;
    var source := ToU32(Get(View(m.record), slot));
    var sa := ToU32(Shl(Xor32(And32(source, 7), imm3), 1));
    ExecLoadLow(fadd, Rax, slot, m);
    var m1 := SetReg(m, Rax, source);
    var m4 := m1.(rax := sa, cf := Xor32(And32(source, 7), imm3) >= 0x8000_0000);
    var load, store := Load(W32, Rax, Offset(slot)), Store(W32, Rax, Offset(SaSlot));
    ExecStore(fadd, W32, Rax, SaSlot, m4);
    ExecOne(fadd, store, m4);
    ExecMtsahCore(fadd, [store], m1, source, imm3);
    var core := [AluImm8(And, Rax, 7), AluImm8(Xor, Rax, imm3)] + ([ShlOne(Rax)] + [store]);
    ExecCons(fadd, load, core, m);
    assert [load, AluImm8(And, Rax, 7), AluImm8(Xor, Rax, imm3), ShlOne(Rax), store] == [load] + core;
  }

  lemma MtsahSimulates(fadd: F32Add, ir: IrInstruction, m: Machine)
    requires |m.record| == RECORD_SIZE && WellShaped(ir) && ir.opcode == ComputeMtsah
    ensures Reaches(fadd, CodeFor(ir), m, Executor.Step(fadd, ir, View(m.record)))
  {
    hide View, Reaches, BitAnd, BitXor, Shl;
    LowThreeBitsAgree(ir.inputs[1].immediate);
    BitAndBound(ToU32(ir.inputs[1].immediate), 7);
    MtsahCodeReaches(fadd, GprLow(ir.inputs[0].index), LowThreeBits(ir.inputs[1].immediate), m);
  }

  lemma ExecScalarAdd(fadd: F32Add, a: Slot, b: Slot, m: Machine, m1: Machine, m2: Machine, sum: U32)
    requires |m.record| == RECORD_SIZE && ValidSlot(a) && ValidSlot(b) && Size(a) == Size(b) == 4
    requires m1 == SetXmm(m, Xmm0, Bytes(m.record, a) + ZeroBytes(12))
    requires sum == fadd(Field32(m.record, a), Field32(m.record, b))
    requires m2 == SetXmm(m1, Xmm0, LeBytes(sum, 4) + m1.xmm0[4..])
    ensures Exec(fadd, MovssLoad(Xmm0, Offset(a)), m) == Some(m1)
    ensures Exec(fadd, AddssMem(Xmm0, Offset(b)), m1) == Some(m2)
    ensures Exec(fadd, MovssStore(Xmm0, Offset(FpAccSlot)), m2) ==
            Some(m2.(record := Stored(m2.record, FpAccSlot, sum)))
  {
    hide LeBytes, Patch, LeValue;
    assert m1.xmm0[..4] == Bytes(m.record, a);
    assert m2.xmm0[..4] == LeBytes(sum, 4);
  }

  lemma ScalarCodeReaches(fadd: F32Add, a: Slot, b: Slot, m: Machine)
    requires |m.record| == RECORD_SIZE && ValidSlot(a) && ValidSlot(b) && Size(a) == Size(b) == 4
    ensures var code := [MovssLoad(Xmm0, Offset(a)), AddssMem(Xmm0, Offset(b)), MovssStore(Xmm0, Offset(FpAccSlot))];
            Ret !in code &&
            Reaches(fadd, code, m, Set(View(m.record), FpAccSlot, fadd(Field32(m.record, a), Field32(m.record, b))))
  {
    hide View, Exec, ExecAll, LeBytes, Stored, Bytes, Set;
    var sum := fadd(Field32(m.record, a), Field32(m.record, b));
    var m1 := SetXmm(m, Xmm0, Bytes(m.record, a) + ZeroBytes(12));
    var m2 := SetXmm(m1, Xmm0, LeBytes(sum, 4) + m1.xmm0[4..]);
    var load, add, store := MovssLoad(Xmm0, Offset(a)), AddssMem(Xmm0, Offset(b)), MovssStore(Xmm0, Offset(FpAccSlot));
    ExecScalarAdd(fadd, a, b, m, m1, m2, sum);
    StoreSlot(m.record, FpAccSlot, sum);
    ExecOne(fadd, store, m2);
    ExecTwo(fadd, load, add, [store], m, m1, m2);
    assert [load, add, store] == [load, add] + [store];
  }

  lemma AddF32Simulates(fadd: F32Add, ir: IrInstruction, m: Machine)
    requires |m.record| == RECORD_SIZE && WellShaped(ir) && ir.opcode == AddF32ToAccumulator
    ensures Reaches(fadd, CodeFor(ir), m, Executor.Step(fadd, ir, View(m.record)))
  {
    hide Reaches, LeValue;
    ScalarCodeReaches(fadd, FprSlot(ir.inputs[0].index), FprSlot(ir.inputs[1].index), m);
  }

  // ---------------------------------------------------------------- the four-lane packed add

  /** Lane k of a 16-byte register value. */
  function Lane(bytes: seq<U8>, k: nat): U32
    requires |bytes| == 16 && k < 4
  {
    LeU32(bytes[4 * k..4 * k + 4])
  }

  /** The value left after shifting out k lanes. */
  function ShiftedOut(bytes: seq<U8>, k: nat): (r: seq<U8>)
    requires |bytes| == 16 && k <= 4
    ensures |r| == 16
  {
    bytes[4 * k..] + ZeroBytes(4 * k)
  }

  function LaneSumBytes(a: seq<U8>, b: seq<U8>, k: nat): (r: seq<U8>)
    requires |a| == |b| == 16 && k < 4
    ensures |r| == 4
  {
    LeBytes(Executor.SaturatingAddU32(Lane(a, k), Lane(b, k)), 4)
  }

  /** The sums of the first k lanes, in memory order. */
  function LaneSums(a: seq<U8>, b: seq<U8>, k: nat): (r: seq<U8>)
    requires |a| == |b| == 16 && k <= 4
    ensures |r| == 4 * k
  {
    if k == 0 then [] else LaneSums(a, b, k - 1) + LaneSumBytes(a, b, k - 1)
  }

  lemma MovdLane(bytes: seq<U8>, k: nat, shifted: seq<U8>)
    requires |bytes| == 16 && k < 4 && shifted == ShiftedOut(bytes, k)
    ensures LeU32(shifted[..4]) == Lane(bytes, k)
  {
    assert shifted[..4] == bytes[4 * k..4 * k + 4];
  }

  lemma PsrldqLane(bytes: seq<U8>, k: nat)
    requires |bytes| == 16 && k < 4
    ensures ShiftedOut(bytes, k)[4..] + ZeroBytes(4) == ShiftedOut(bytes, k + 1)
  {
  }

  /** add; sbb edx, edx; or: the carry becomes an all-ones mask, so the sum saturates. */
  lemma SaturatingCode(fadd: F32Add, rest: seq<Insn>, m: Machine, lhs: U32, rhs: U32)
    requires m.rax == lhs && m.rdx == rhs && Ret !in rest
    ensures var code := [AluRegReg(Add, W32, Rax, Rdx), AluRegReg(Sbb, W32, Rdx, Rdx)]
                        + ([AluRegReg(Or, W32, Rax, Rdx)] + rest);
            var mask := if lhs as int + rhs >= 0x1_0000_0000 then 0xFFFF_FFFF else 0;
            Ret !in code &&
            ExecAll(fadd, code, m) ==
            ExecAll(fadd, rest, m.(rax := Executor.SaturatingAddU32(lhs, rhs), rdx := mask, cf := false))
  {
    hide Exec, ExecAll;
    var sum: int := lhs as int + rhs;
    var mask := if sum >= 0x1_0000_0000 then 0xFFFF_FFFF else 0;
    var m1 := m.(rax := ToU32(sum), cf := sum >= 0x1_0000_0000);
    var m2 := m1.(rdx := mask);
    var m3 := m2.(rax := Executor.SaturatingAddU32(lhs, rhs), cf := false);
    ExecAdd32(fadd, m, lhs, rhs);
    ExecSbb(fadd, m1);
    ExecOrMask(fadd, m2, sum, mask);
    ExecCons(fadd, AluRegReg(Or, W32, Rax, Rdx), rest, m2);
    ExecTwo(fadd, AluRegReg(Add, W32, Rax, Rdx), AluRegReg(Sbb, W32, Rdx, Rdx),
            [AluRegReg(Or, W32, Rax, Rdx)] + rest, m, m1, m2);
  }

  lemma ExecSbb(fadd: F32Add, m: Machine)
    ensures Exec(fadd, AluRegReg(Sbb, W32, Rdx, Rdx), m) == Some(m.(rdx := if m.cf then 0xFFFF_FFFF else 0))
  {
  }

  lemma ExecOrMask(fadd: F32Add, m: Machine, sum: int, mask: U32)
    requires 0 <= sum < 0x2_0000_0000 && m.rax == ToU32(sum) && m.rdx == mask
    requires mask == if sum >= 0x1_0000_0000 then 0xFFFF_FFFF else 0
    ensures Exec(fadd, AluRegReg(Or, W32, Rax, Rdx), m) ==
            Some(m.(rax := if sum > 0xFFFF_FFFF then 0xFFFF_FFFF else sum, cf := false))
  {
    hide BitOr;
    OrWithMask(ToU32(sum), mask);
  }

  lemma OrWithMask(v: U32, mask: U32)
    requires mask == 0 || mask == 0xFFFF_FFFF
    ensures BitOr(v, mask) == if mask == 0 then v else mask
  {
    if mask != 0 {
      Pow2Values();
      BitOrOnes(v, 32);
    }
  }

  /** The sources still hold the lanes from k on. */
  predicate SourcesAt(m: Machine, a: seq<U8>, b: seq<U8>, k: nat)
    requires |a| == |b| == 16 && k <= 4
  {
    m.xmm0 == ShiftedOut(a, k) && m.xmm1 == ShiftedOut(b, k)
  }

  /** The record after k lanes: their sums at the destination, unless it is GPR0. */
  function RecordAt(record: Record, index: nat, a: seq<U8>, b: seq<U8>, k: nat): (r: Record)
    requires |a| == |b| == 16 && k <= 4 && index < 32
  {
    if index == 0 then record else Patch(record, 16 * index, LaneSums(a, b, k))
  }

  lemma PatchAdjacent(record: Record, at: nat, x: seq<U8>, y: seq<U8>)
    requires at + |x| + |y| <= |record|
    ensures Patch(Patch(record, at, x), at + |x|, y) == Patch(record, at, x + y)
  {
  }

  lemma ShiftTail(fadd: F32Add, m: Machine, a: seq<U8>, b: seq<U8>, k: nat)
    requires |a| == |b| == 16 && k < 4 && SourcesAt(m, a, b, k)
    ensures var tail := if k != 3 then [Psrldq(Xmm0, 4), Psrldq(Xmm1, 4)] else [];
            && Ret !in tail && ExecAll(fadd, tail, m).Some?
            && ExecAll(fadd, tail, m).value.record == m.record
            && (k != 3 ==> SourcesAt(ExecAll(fadd, tail, m).value, a, b, k + 1))
  {
    if k != 3 {
      var m1 := m.(xmm0 := ShiftedOut(a, k + 1));
      var m2 := m1.(xmm1 := ShiftedOut(b, k + 1));
      PsrldqLane(a, k);
      PsrldqLane(b, k);
      assert Exec(fadd, Psrldq(Xmm0, 4), m) == Some(m1) && Exec(fadd, Psrldq(Xmm1, 4), m1) == Some(m2);
      ExecTwo(fadd, Psrldq(Xmm0, 4), Psrldq(Xmm1, 4), [], m, m1, m2);
      assert [Psrldq(Xmm0, 4), Psrldq(Xmm1, 4)] + [] == [Psrldq(Xmm0, 4), Psrldq(Xmm1, 4)];
    }
  }

  lemma StoreLane(fadd: F32Add, record: Record, index: nat, m: Machine, a: seq<U8>, b: seq<U8>, k: nat)
    requires |a| == |b| == 16 && k < 4 && index < 32 && m.record == RecordAt(record, index, a, b, k)
    requires m.rax == Executor.SaturatingAddU32(Lane(a, k), Lane(b, k))
    ensures var store := LaneStore(index, k);
            Ret !in store && ExecAll(fadd, store, m) == Some(m.(record := RecordAt(record, index, a, b, k + 1)))
  {
    hide LeBytes, Patch, LeValue;
    if index != 0 {
      PatchAdjacent(record, 16 * index, LaneSums(a, b, k), LaneSumBytes(a, b, k));
      ExecOne(fadd, Store(W32, Rax, 16 * index + 4 * k), m);
    }
  }

  lemma LaneReaches(fadd: F32Add, record: Record, index: nat, m: Machine, a: seq<U8>, b: seq<U8>, k: nat)
    requires |a| == |b| == 16 && k < 4 && index < 32
    requires SourcesAt(m, a, b, k) && m.record == RecordAt(record, index, a, b, k)
    ensures var out := ExecAll(fadd, LaneCode(index, k), m);
            && out.Some?
            && out.value.record == RecordAt(record, index, a, b, k + 1)
            && (k != 3 ==> SourcesAt(out.value, a, b, k + 1))
  {
    hide RecordAt, LaneStore, Lane, ShiftedOut, ExecAll, LeValue;
    var x, y := Lane(a, k), Lane(b, k);
    var store := LaneStore(index, k);
    var tail := if k != 3 then [Psrldq(Xmm0, 4), Psrldq(Xmm1, 4)] else [];
    MovdLane(a, k, m.xmm0);
    MovdLane(b, k, m.xmm1);
    var m1 := m.(rax := x);
    var m2 := m1.(rdx := y);
    assert Exec(fadd, MovdToReg(Rax, Xmm0), m) == Some(m1) && Exec(fadd, MovdToReg(Rdx, Xmm1), m1) == Some(m2);
    var mask := if x as int + y >= 0x1_0000_0000 then 0xFFFF_FFFF else 0;
    var m3 := m2.(rax := Executor.SaturatingAddU32(x, y), rdx := mask, cf := false);
    StoreLane(fadd, record, index, m3, a, b, k);
    var m4 := m3.(record := RecordAt(record, index, a, b, k + 1));
    ShiftTail(fadd, m4, a, b, k);
    ExecAllConcat(fadd, store, tail, m3);
    SaturatingCode(fadd, store + tail, m2, x, y);
    var core := [AluRegReg(Add, W32, Rax, Rdx), AluRegReg(Sbb, W32, Rdx, Rdx)]
                + ([AluRegReg(Or, W32, Rax, Rdx)] + (store + tail));
    ExecTwo(fadd, MovdToReg(Rax, Xmm0), MovdToReg(Rdx, Xmm1), core, m, m1, m2);
    assert LaneCode(index, k) == [MovdToReg(Rax, Xmm0), MovdToReg(Rdx, Xmm1)] + core;
  }

  lemma {:induction false} LanesReach(fadd: F32Add, record: Record, index: nat, m: Machine, a: seq<U8>, b: seq<U8>,
                                      k: nat)
    requires |a| == |b| == 16 && k <= 4 && index < 32
    requires (k < 4 ==> SourcesAt(m, a, b, k)) && m.record == RecordAt(record, index, a, b, k)
    ensures var out := ExecAll(fadd, LanesCode(index, k), m);
            out.Some? && out.value.record == RecordAt(record, index, a, b, 4)
    decreases 4 - k
  {
    if k < 4 {
      hide RecordAt, LaneCode, SourcesAt, Exec;
      LaneReaches(fadd, record, index, m, a, b, k);
      LanesReach(fadd, record, index, ExecAll(fadd, LaneCode(index, k), m).value, a, b, k + 1);
      ExecAllConcat(fadd, LaneCode(index, k), LanesCode(index, k + 1), m);
    }
  }

  /** The sixteen bytes of a register. */
  function GprBytes(record: Record, index: nat): (r: seq<U8>)
    requires index < 32
    ensures |r| == 16
  {
    record[16 * index..16 * index + 16]
  }

  lemma SubSlice(r: seq<U8>, at: nat, n: nat, from: nat, len: nat)
    requires at + n <= |r| && from + len <= n
    ensures r[at..at + n][from..from + len] == r[at + from..at + from + len]
  {
    var x, y := r[at..at + n][from..from + len], r[at + from..at + from + len];
    forall k | 0 <= k < len
      ensures x[k] == y[k]
    {
      assert r[at..at + n][from + k] == r[at + (from + k)];
    }
  }

  lemma GprLanes(record: Record, index: nat, k: nat)
    requires index < 32 && k < 4
    ensures Executor.PackedLane(View(record).gpr[index], k) == Lane(GprBytes(record, index), k)
  {
    hide Executor.PackedLane, LeValue;
    var bytes := GprBytes(record, index);
    var low, high := Bytes(record, GprLow(index)), Bytes(record, GprHigh(index));
    Executor.PackedLaneMeaning(View(record).gpr[index]);
    LeU64Halves(low);
    LeU64Halves(high);
    var at := 16 * index;
    SubSlice(record, at, 16, 4 * k, 4);
    SubSlice(record, at, 8, 0, 4);
    SubSlice(record, at, 8, 4, 4);
    SubSlice(record, at + 8, 8, 0, 4);
    SubSlice(record, at + 8, 8, 4, 4);
  }

  /** Four lane sums in memory order are the two halves of the packed sum. */
  lemma LaneSumsAreHalves(record: Record, i: nat, j: nat)
    requires i < 32 && j < 32
    ensures var r := Executor.AddLanes(View(record).gpr[i], View(record).gpr[j], 0, ZERO_GPR);
            LaneSums(GprBytes(record, i), GprBytes(record, j), 4) == LeBytes(r.low64, 8) + LeBytes(r.high64, 8)
  {
    hide View, LeBytes, Executor.AddLanes, Executor.PackedLane, Lane, GprBytes;
    var lhs, rhs := View(record).gpr[i], View(record).gpr[j];
    var a, b := GprBytes(record, i), GprBytes(record, j);
    forall k | 0 <= k < 4
      ensures LaneSumBytes(a, b, k) == LeBytes(Executor.LaneSum(lhs, rhs, k), 4)
    {
      GprLanes(record, i, k);
      GprLanes(record, j, k);
    }
    Executor.AddLanesMeaning(lhs, rhs);
    LeBytesHalves(Executor.LaneSum(lhs, rhs, 0), Executor.LaneSum(lhs, rhs, 1));
    LeBytesHalves(Executor.LaneSum(lhs, rhs, 2), Executor.LaneSum(lhs, rhs, 3));
    assert LaneSums(a, b, 2) == LaneSumBytes(a, b, 0) + LaneSumBytes(a, b, 1);
    assert LaneSums(a, b, 4) == LaneSums(a, b, 2) + (LaneSumBytes(a, b, 2) + LaneSumBytes(a, b, 3));
  }

  /** Storing both halves of a register replaces it. */
  lemma StoreWholeGpr(record: Record, index: nat, v: GprValue)
    requires index < 32
    ensures var s := View(record);
            View(Patch(record, 16 * index, LeBytes(v.low64, 8) + LeBytes(v.high64, 8))) ==
            s.(gpr := s.gpr[index := v])
  {
    hide View, LeBytes, Patch;
    PatchAdjacent(record, 16 * index, LeBytes(v.low64, 8), LeBytes(v.high64, 8));
    StoreSlot(record, GprLow(index), v.low64);
    StoreSlot(Stored(record, GprLow(index), v.low64), GprHigh(index), v.high64);
  }

  lemma PadduwCodeReaches(fadd: F32Add, i: nat, j: nat, index: nat, m: Machine)
    requires |m.record| == RECORD_SIZE && i < 32 && j < 32 && index < 32
    ensures var code := [MovdquLoad(Xmm0, 16 * i), MovdquLoad(Xmm1, 16 * j)] + LanesCode(index, 0);
            var out := ExecAll(fadd, code, m);
            out.Some? &&
            out.value.record == RecordAt(m.record, index, GprBytes(m.record, i), GprBytes(m.record, j), 4)
  {
    var a, b := GprBytes(m.record, i), GprBytes(m.record, j);
    var m1 := m.(xmm0 := a);
    var m2 := m1.(xmm1 := b);
    assert SourcesAt(m2, a, b, 0);
    assert RecordAt(m.record, index, a, b, 0) == m.record;
    assert Exec(fadd, MovdquLoad(Xmm0, 16 * i), m) == Some(m1);
    assert Exec(fadd, MovdquLoad(Xmm1, 16 * j), m1) == Some(m2);
    hide Exec, ExecAll, LanesCode, RecordAt, SourcesAt, GprBytes;
    LanesReach(fadd, m.record, index, m2, a, b, 0);
    ExecTwo(fadd, MovdquLoad(Xmm0, 16 * i), MovdquLoad(Xmm1, 16 * j), LanesCode(index, 0), m, m1, m2);
  }

  lemma PadduwSimulates(fadd: F32Add, ir: IrInstruction, m: Machine)
    requires |m.record| == RECORD_SIZE && WellShaped(ir) && ir.opcode == AddPackedU32Saturate128
    ensures Reaches(fadd, CodeFor(ir), m, Executor.Step(fadd, ir, View(m.record)))
  {
    hide View, Exec, ExecAll, Executor.AddLanes, LanesCode, LaneSums, LeBytes, Patch, GprBytes;
    var i: nat, j: nat, index: nat := ir.inputs[0].index, ir.inputs[1].index, ir.destination.value.index;
    PadduwCodeReaches(fadd, i, j, index, m);
    LaneSumsAreHalves(m.record, i, j);
    StoreWholeGpr(m.record, index, Executor.AddLanes(View(m.record).gpr[i], View(m.record).gpr[j], 0, ZERO_GPR));
  }

  // ---------------------------------------------------------------- whole blocks

  /** Native code of one instruction has the effect the executor gives it. */
  lemma InstructionSimulates(fadd: F32Add, ir: IrInstruction, m: Machine)
    requires |m.record| == RECORD_SIZE && WellShaped(ir)
    ensures Reaches(fadd, CodeFor(ir), m, Executor.Step(fadd, ir, View(m.record)))
  {
    match ir.opcode {
      case Nop =>
      case AddWordSignExtend => AddWordSimulates(fadd, ir, m);
      case Or64 => BitwiseSimulates(fadd, ir, m);
      case And64 => BitwiseSimulates(fadd, ir, m);
      case LoadUpperImmediateSignExtend => LuiSimulates(fadd, ir, m);
      case AddPackedU32Saturate128 => PadduwSimulates(fadd, ir, m);
      case MoveGprLow64 => MoveSimulates(fadd, ir, m);
      case ComputeMtsah => MtsahSimulates(fadd, ir, m);
      case MoveBits32 => MoveSimulates(fadd, ir, m);
      case AddF32ToAccumulator => AddF32Simulates(fadd, ir, m);
    }
  }

  lemma ZeroGpr0Reaches(fadd: F32Add, m: Machine)
    requires |m.record| == RECORD_SIZE
    ensures Reaches(fadd, ZeroGpr0Code(), m, Executor.NormalizeZero(View(m.record)))
  {
    hide View, ExecAll;
    var clear := AluRegReg(Xor, W32, Rax, Rax);
    var low, high := Store(W64, Rax, Offset(GprLow(0))), Store(W64, Rax, Offset(GprHigh(0)));
    BitXorSelf(ToU32(m.rax));
    hide BitXor, Patch, LeBytes;
    var m1 := Exec(fadd, clear, m).value;
    assert m1 == m.(rax := 0, cf := false);
    ExecStore(fadd, W64, Rax, GprLow(0), m1);
    var m2 := Exec(fadd, low, m1).value;
    ExecStore(fadd, W64, Rax, GprHigh(0), m2);
    hide Exec;
    ExecOne(fadd, high, m2);
    ExecTwo(fadd, clear, low, [high], m, m1, m2);
    assert ZeroGpr0Code() == [clear, low] + [high];
  }

  lemma {:induction false} BodySimulates(fadd: F32Add, irs: seq<IrInstruction>, m: Machine)
    requires |m.record| == RECORD_SIZE && AllWellShaped(irs)
    ensures var out := ExecAll(fadd, BodyCode(irs), m);
            && out.Some? && |out.value.record| == RECORD_SIZE
            && Executor.ExecuteFrom(fadd, irs, View(m.record)) ==
               Executor.ExecutionResult(Executor.NoError, Executor.NormalizeZero(View(out.value.record)))
    decreases |irs|
  {
    hide View, Exec, CodeFor, Executor.Step, Executor.NormalizeZero;
    if |irs| > 0 {
      ValidIffWellShaped(irs[0]);
      InstructionSimulates(fadd, irs[0], m);
      var m1 := ExecAll(fadd, CodeFor(irs[0]), m).value;
      BodySimulates(fadd, irs[1..], m1);
      ExecAllConcat(fadd, CodeFor(irs[0]), BodyCode(irs[1..]), m);
    }
  }

  lemma BlockSimulates(fadd: F32Add, irs: seq<IrInstruction>, m: Machine)
    requires |m.record| == RECORD_SIZE && AllWellShaped(irs)
    ensures Reaches(fadd, BlockCode(irs), m, Executor.Execute(fadd, irs, View(m.record)).state)
    ensures Executor.Execute(fadd, irs, View(m.record)).error == Executor.NoError
  {
    hide View, ExecAll, ZeroGpr0Code, BodyCode, Executor.NormalizeZero;
    ZeroGpr0Reaches(fadd, m);
    var m1 := ExecAll(fadd, ZeroGpr0Code(), m).value;
    BodySimulates(fadd, irs, m1);
    var m2 := ExecAll(fadd, BodyCode(irs), m1).value;
    ZeroGpr0Reaches(fadd, m2);
    ExecAllConcat(fadd, ZeroGpr0Code(), BodyCode(irs), m);
    ExecAllConcat(fadd, ZeroGpr0Code() + BodyCode(irs), ZeroGpr0Code(), m);
  }

  /** Compiler correctness. If the compiler accepts, fetching and decoding its
      bytes from any machine state, with any contents of the state record,
      reaches RET with exactly the state the reference executor computes. If it
      rejects, the executor reports the same class of error on every state. */
  lemma CompilerCorrect(fadd: F32Add, irs: seq<IrInstruction>, m: Machine)
    requires |m.record| == RECORD_SIZE
    ensures var reference, compiled := Executor.Execute(fadd, irs, View(m.record)), Compile(irs);
            if compiled.CompileFailed? then reference.error == ExecutionErrorOf(compiled.error)
            else
              var out := Run(fadd, compiled.native, m);
              && reference.error == Executor.NoError
              && out.Some? && |out.value.record| == RECORD_SIZE && View(out.value.record) == reference.state
  {
    hide View, ExecAll, BlockCode, Run;
    NoFirstErrorIsWellShaped(irs);
    Executor.ExecuteReportsFirstError(fadd, irs, Executor.NormalizeZero(View(m.record)));
    if Compile(irs).Compiled? {
      BlockSimulates(fadd, irs, m);
      RunAssembled(fadd, BlockCode(irs), m);
    }
  }

  function ExecutionErrorOf(error: CompileError): Executor.ExecutionError {
    match error
    case MalformedInstructionError => Executor.MalformedInstructionError
    case InvalidRegisterError => Executor.InvalidRegisterError
    case UnsupportedOpcodeError => Executor.UnsupportedOpcodeError
  }

  /** Running a compiled block on a state, through its record. */
  function NativeExecute(fadd: F32Add, native: seq<U8>, s: State): State {
    var out := Run(fadd, native, Machine(0, 0, ZeroBytes(16), ZeroBytes(16), false, Image(s)));
    if out.Some? && |out.value.record| == RECORD_SIZE then View(out.value.record) else s
  }

  /** The record of m denotes s; registers, carry and padding are arbitrary. */
  predicate Denotes(m: Machine, s: State) { |m.record| == RECORD_SIZE && View(m.record) == s }

  /** A call of native code from m returns, and its record then denotes s. */
  predicate CallLeaves(fadd: F32Add, native: seq<U8>, m: Machine, s: State) {
    var out := Run(fadd, native, m);
    out.Some? && Denotes(out.value, s)
  }

  /** A compiled block has the effect of the executor on a state, whatever the
      scratch registers, the carry and the record's padding hold at the call. */
  lemma NativeExecuteIsExecute(fadd: F32Add, irs: seq<IrInstruction>, s: State)
    requires Compile(irs).Compiled?
    ensures Executor.Execute(fadd, irs, s) ==
            Executor.ExecutionResult(Executor.NoError, NativeExecute(fadd, Compile(irs).native, s))
    ensures forall m: Machine :: Denotes(m, s) ==>
              CallLeaves(fadd, Compile(irs).native, m, NativeExecute(fadd, Compile(irs).native, s))
  {
    hide View, Run, Image, Compile, Executor.Execute;
    ViewOfImage(s);
    CompilerCorrect(fadd, irs, Machine(0, 0, ZeroBytes(16), ZeroBytes(16), false, Image(s)));
    forall m: Machine | Denotes(m, s)
      ensures CallLeaves(fadd, Compile(irs).native, m, NativeExecute(fadd, Compile(irs).native, s))
    {
      CompilerCorrect(fadd, irs, m);
    }
  }

  // ---------------------------------------------------------------- what the bytes are, and where they store

  /** The emitted bytes parse back to exactly the intended instruction list, in
      which RET is the last instruction and the only one. */
  lemma CompiledBytesParseUniquely(irs: seq<IrInstruction>)
    requires Compile(irs).Compiled?
    ensures AllWellShaped(irs)
    ensures Disassemble(Compile(irs).native) == Some(BlockCode(irs) + [Ret]) && Ret !in BlockCode(irs)
    ensures var native := Compile(irs).native; |native| > 0 && native[|native| - 1] == 0xC3
  {
    hide BlockCode, Disassemble;
    NoFirstErrorIsWellShaped(irs);
    AssembleSnoc(BlockCode(irs), Ret);
    DisassembleInvertsAssemble(BlockCode(irs) + [Ret]);
  }

  /** The record bytes an instruction may write: [from, to). */
  datatype Extent = Extent(from: int, to: int)

  predicate Writes(i: Insn) { i.Store? || i.MovssStore? }

  function Written(i: Insn): Extent
    requires Writes(i)
  {
    Extent(i.disp, i.disp + (if i.Store? && i.width == W64 then 8 else 4))
  }

  /** The record bytes of the destination an IR instruction names. */
  function DestinationExtent(d: Destination): Extent {
    match d.kind
    case GprDest => Extent(16 * d.index, 16 * d.index + 16)
    case Hi => Extent(512, 520)
    case Lo => Extent(520, 528)
    case Hi1 => Extent(528, 536)
    case Lo1 => Extent(536, 544)
    case SaDest => Extent(544, 548)
    case FprDest => Extent(548 + 4 * d.index, 552 + 4 * d.index)
    case Fcr31 => Extent(676, 680)
    case FpAccumulator => Extent(680, 684)
    case UnlistedDestinationKind(_) => Extent(0, 0)
  }

  predicate Within(inner: Extent, outer: Extent) { outer.from <= inner.from && inner.to <= outer.to }

  predicate StoresOnly(code: seq<Insn>, extent: Extent) {
    forall i | i in code && Writes(i) :: Within(Written(i), extent)
  }

  lemma {:induction false} LanesStoreInside(index: nat, lane: nat)
    requires index < 32 && lane <= 4
    ensures StoresOnly(LanesCode(index, lane), Extent(16 * index, 16 * index + 16))
    decreases 4 - lane
  {
    if lane < 4 {
      LanesStoreInside(index, lane + 1);
    }
  }

  lemma InstructionStoresInside(ir: IrInstruction)
    requires WellShaped(ir)
    ensures if ir.destination.None? then StoresOnly(CodeFor(ir), Extent(0, 0))
            else StoresOnly(CodeFor(ir), DestinationExtent(ir.destination.value))
  {
    hide LanesCode;
    match ir.opcode {
      case AddPackedU32Saturate128 => LanesStoreInside(ir.destination.value.index, 0);
      case MoveGprLow64 =>
      case MoveBits32 =>
      case _ =>
    }
  }

  /** Every store of a compiled block lies inside GPR0, which it clears, or
      inside the destination some IR instruction of the block names. */
  lemma {:induction false} BodyStoresInside(irs: seq<IrInstruction>, i: Insn)
    requires AllWellShaped(irs) && i in BodyCode(irs) && Writes(i)
    ensures exists ir :: ir in irs && ir.destination.Some? &&
                         Within(Written(i), DestinationExtent(ir.destination.value))
    decreases |irs|
  {
    hide CodeFor, DestinationExtent;
    InstructionStoresInside(irs[0]);
    if i in CodeFor(irs[0]) {
      assert irs[0] in irs;
    } else {
      BodyStoresInside(irs[1..], i);
      var ir :| ir in irs[1..] && ir.destination.Some? && Within(Written(i), DestinationExtent(ir.destination.value));
      assert ir in irs;
    }
  }

  lemma BlockStoresInside(irs: seq<IrInstruction>, i: Insn)
    requires AllWellShaped(irs) && i in BlockCode(irs) && Writes(i)
    ensures Within(Written(i), Extent(0, 16)) ||
            exists ir :: ir in irs && ir.destination.Some? &&
                         Within(Written(i), DestinationExtent(ir.destination.value))
  {
    if i in BodyCode(irs) {
      BodyStoresInside(irs, i);
    } else {
      assert i in ZeroGpr0Code();
    }
  }
}
