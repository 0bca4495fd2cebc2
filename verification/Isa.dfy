/** An architectural semantics of the instructions the front end supports,
    written from the instruction descriptions over the bits of the word, and
    the proof that decoding, lowering and executing a word has that meaning
    (docs/superpowers/specs/2026-09-04-r5900-startup-execution-v0-design.md,
    sections 4.1 to 4.10). */
module Isa {
  import opened Words
  import opened Options
  import opened GuestState
  import opened Ir
  import opened Validation
  import D = Decoder
  import L = Lowering
  import E = Executor

  datatype Mnemonic =
    | NOP | SYNC | ADDU | ADDIU | ORI | ANDI | LUI | MTHI | MTLO | MTHI1 | MTLO1
    | MTSAH | PADDUW | MTC1 | CTC1 | ADDAS

  /** The supported mnemonics by their encodings. */
  function Identify(raw: U32, primary: U8, rs: U8, rt: U8, rd: U8, sa: U8, funct: U8): Option<Mnemonic> {
    if raw == 0 then Some(NOP)
    else if primary == 0x00 && funct == 0x0F then Some(SYNC)
    else if primary == 0x00 && funct == 0x11 then Some(MTHI)
    else if primary == 0x00 && funct == 0x13 then Some(MTLO)
    else if primary == 0x00 && funct == 0x21 then Some(ADDU)
    else if primary == 0x01 && rt == 0x19 then Some(MTSAH)
    else if primary == 0x09 then Some(ADDIU)
    else if primary == 0x0C then Some(ANDI)
    else if primary == 0x0D then Some(ORI)
    else if primary == 0x0F then Some(LUI)
    else if primary == 0x11 && rs == 0x04 then Some(MTC1)
    else if primary == 0x11 && rs == 0x06 && rd == 31 then Some(CTC1)
    else if primary == 0x11 && rs == 0x10 && funct == 0x18 then Some(ADDAS)
    else if primary == 0x1C && funct == 0x11 then Some(MTHI1)
    else if primary == 0x1C && funct == 0x13 then Some(MTLO1)
    else if primary == 0x1C && funct == 0x28 && sa == 0x10 then Some(PADDUW)
    else None
  }

  function MnemonicOf(word: U32): Option<Mnemonic> {
    Identify(word, D.Primary(word), D.Rs(word), D.Rt(word), D.Rd(word), D.Sa(word), D.Funct(word))
  }

  /** The 64-bit register image of a 32-bit result, as a two's-complement integer. */
  function Word(x: int): U64 {
    var low := x % 0x1_0000_0000;
    ToU64(if low < 0x8000_0000 then low else low - 0x1_0000_0000)
  }

  function Signed16(x: U16): int { if x < 0x8000 then x else x - 0x1_0000 }

  function WriteLow(s: State, r: nat, value: U64): State
    requires r < 32
  {
    if r == 0 then s else s.(gpr := s.gpr[r := GprValue(value, s.gpr[r].high64)])
  }

  /** Word k of a 128-bit register. */
  function QuadWord(v: GprValue, k: nat): nat
    requires k < 4
  {
    var half := if k < 2 then v.low64 else v.high64;
    if k % 2 == 0 then half % 0x1_0000_0000 else half / 0x1_0000_0000
  }

  function Saturate(x: nat): U32 { if x < 0x1_0000_0000 then x else 0xFFFF_FFFF }

  function PackedSum(a: GprValue, b: GprValue): GprValue {
    GprValue(
      Saturate(QuadWord(a, 0) + QuadWord(b, 0)) + 0x1_0000_0000 * Saturate(QuadWord(a, 1) + QuadWord(b, 1)),
      Saturate(QuadWord(a, 2) + QuadWord(b, 2)) + 0x1_0000_0000 * Saturate(QuadWord(a, 3) + QuadWord(b, 3)))
  }

  /** The operand fields of a word. */
  datatype OperandFields = OperandFields(rs: nat, rt: nat, rd: nat, imm: U16)

  predicate FieldsOk(f: OperandFields) { f.rs < 32 && f.rt < 32 && f.rd < 32 }

  /** What one instruction does to a state whose GPR0 is zero. */
  function Effect(fadd: F32Add, op: Mnemonic, f: OperandFields, s: State): State
    requires FieldsOk(f)
  {
    var rs, rt := s.gpr[f.rs].low64, s.gpr[f.rt].low64;
    match op
    case NOP => s
    case SYNC => s
    case ADDU => WriteLow(s, f.rd, Word(rs as int + rt))
    case ADDIU => WriteLow(s, f.rt, Word(rs + Signed16(f.imm)))
    case ORI => OriEffect(s, f, rs)
    case ANDI => WriteLow(s, f.rt, Words.And64(rs % 0x1_0000, f.imm))
    case LUI => WriteLow(s, f.rt, Word(f.imm * 0x1_0000))
    case MTHI => s.(hi := rs)
    case MTLO => s.(lo := rs)
    case MTHI1 => s.(hi1 := rs)
    case MTLO1 => s.(lo1 := rs)
    case MTSAH => s.(sa := ToU32(2 * Xor32(rs % 8, f.imm % 8)))
    case PADDUW => if f.rd == 0 then s else s.(gpr := s.gpr[f.rd := PackedSum(s.gpr[f.rs], s.gpr[f.rt])])
    case MTC1 => s.(fpr := s.fpr[f.rd := rt % 0x1_0000_0000])
    case CTC1 => s.(fcr31 := rt % 0x1_0000_0000)
    case ADDAS => s.(fpAcc := fadd(s.fpr[f.rd], s.fpr[f.rt]))
  }

  /** ORI sets bits in the low halfword only. */
  function OriEffect(s: State, f: OperandFields, rs: U64): State
    requires FieldsOk(f)
  {
    WriteLow(s, f.rt, ToU64(rs / 0x1_0000 * 0x1_0000 + Or32(rs % 0x1_0000, f.imm)))
  }

  function FieldsOf(word: U32): OperandFields {
    OperandFields(D.Rs(word), D.Rt(word), D.Rd(word), word % 0x1_0000)
  }

  /** The architectural effect of a word, when it is a supported one. */
  function IsaStep(fadd: F32Add, word: U32, s: State): Option<State> {
    match MnemonicOf(word)
    case None => None
    case Some(op) => Some(Effect(fadd, op, FieldsOf(word), s))
  }

  // ---------------------------------------------------------------- the decoder agrees on the mnemonic

  function DecodedMnemonic(i: D.Instruction, rd: U8): Option<Mnemonic> {
    match i
    case Nop => Some(NOP)
    case Sync => Some(SYNC)
    case Addu => Some(ADDU)
    case Addiu => Some(ADDIU)
    case Ori => Some(ORI)
    case Andi => Some(ANDI)
    case Lui => Some(LUI)
    case Mthi => Some(MTHI)
    case Mtlo => Some(MTLO)
    case Mthi1 => Some(MTHI1)
    case Mtlo1 => Some(MTLO1)
    case Mtsah => Some(MTSAH)
    case Padduw => Some(PADDUW)
    case Mtc1 => Some(MTC1)
    case Ctc1 => if rd == 31 then Some(CTC1) else None
    case AddaS => Some(ADDAS)
    case _ => None
  }

  lemma SpecialIdentifies(raw: U32, rs: U8, rt: U8, rd: U8, sa: U8, funct: U8)
    ensures Identify(raw, 0x00, rs, rt, rd, sa, funct) == DecodedMnemonic(D.DecodeSpecial(raw, funct).instruction, rd)
  {
    hide D.Consistent;
  }

  lemma SubtablesIdentify(raw: U32, rs: U8, rt: U8, rd: U8, sa: U8, funct: U8)
    requires raw != 0
    ensures Identify(raw, 0x01, rs, rt, rd, sa, funct) == DecodedMnemonic(D.DecodeRegimm(rt).instruction, rd)
    ensures Identify(raw, 0x11, rs, rt, rd, sa, funct) == DecodedMnemonic(D.DecodeCop1(rs, funct).instruction, rd)
    ensures Identify(raw, 0x1C, rs, rt, rd, sa, funct) == DecodedMnemonic(D.DecodeMmi(funct, sa).instruction, rd)
  {
    hide D.Consistent;
  }

  lemma HighPrimaryIdentifies(raw: U32, primary: U8, rs: U8, rt: U8, rd: U8, sa: U8, funct: U8)
    requires raw != 0 && primary >= 0x10 && primary !in {0x11, 0x1C}
    ensures Identify(raw, primary, rs, rt, rd, sa, funct) ==
            DecodedMnemonic(D.Classify(raw, primary, rs, rt, sa, funct).instruction, rd)
  {
    hide D.DecodeSpecial, D.DecodeRegimm, D.DecodeCop1, D.DecodeMmi, D.Consistent;
  }

  lemma PrimaryIdentifies(raw: U32, primary: U8, rs: U8, rt: U8, rd: U8, sa: U8, funct: U8)
    requires raw != 0 && primary !in {0x00, 0x01} && primary < 0x10
    ensures Identify(raw, primary, rs, rt, rd, sa, funct) ==
            DecodedMnemonic(D.Classify(raw, primary, rs, rt, sa, funct).instruction, rd)
  {
    hide D.DecodeSpecial, D.DecodeRegimm, D.DecodeCop1, D.DecodeMmi, D.Consistent;
  }

  lemma SubtableOf(raw: U32, rs: U8, rt: U8, sa: U8, funct: U8)
    ensures D.Classify(raw, 0x00, rs, rt, sa, funct) == D.DecodeSpecial(raw, funct)
    ensures D.Classify(raw, 0x01, rs, rt, sa, funct) == D.DecodeRegimm(rt)
    ensures D.Classify(raw, 0x11, rs, rt, sa, funct) == D.DecodeCop1(rs, funct)
    ensures D.Classify(raw, 0x1C, rs, rt, sa, funct) == D.DecodeMmi(funct, sa)
  {
    hide D.DecodeSpecial, D.DecodeRegimm, D.DecodeCop1, D.DecodeMmi, D.Consistent;
  }

  lemma DecoderIdentifies(raw: U32, primary: U8, rs: U8, rt: U8, rd: U8, sa: U8, funct: U8)
    requires raw == 0 ==> primary == 0
    ensures Identify(raw, primary, rs, rt, rd, sa, funct) ==
            DecodedMnemonic(D.Classify(raw, primary, rs, rt, sa, funct).instruction, rd)
  {
    hide Identify, DecodedMnemonic, D.Classify, D.DecodeSpecial, D.DecodeRegimm, D.DecodeCop1, D.DecodeMmi,
      D.Consistent;
    SubtableOf(raw, rs, rt, sa, funct);
    SpecialIdentifies(raw, rs, rt, rd, sa, funct);
    if raw != 0 {
      SubtablesIdentify(raw, rs, rt, rd, sa, funct);
      if primary !in {0x00, 0x01} && primary < 0x10 {
        PrimaryIdentifies(raw, primary, rs, rt, rd, sa, funct);
      } else if primary !in {0x00, 0x01, 0x11, 0x1C} {
        HighPrimaryIdentifies(raw, primary, rs, rt, rd, sa, funct);
      }
    }
  }

  lemma LoweringSupports(decoded: D.Decoded, guestPc: U32)
    ensures L.Lower(decoded, guestPc).Lowered? <==> DecodedMnemonic(decoded.instruction, decoded.rd).Some?
  {
  }

  // ---------------------------------------------------------------- executing the lowered instruction

  lemma SignExtensionAgrees(x: int)
    ensures E.SignExtendWord(ToU32(x)) == Word(x)
  {
    E.SignExtendWordMeaning(ToU32(x));
  }

  lemma AddressableSum(a: U64, b: int)
    ensures ToU32(ToU32(a) as int + ToU32(ToU64(b))) == ToU32(a + b)
  {
    ToU32OfToU64(b);
    var p, q := a / 0x1_0000_0000, b / 0x1_0000_0000;
    assert a == 0x1_0000_0000 * p + ToU32(a) && b == 0x1_0000_0000 * q + ToU32(b);
    var r: int := ToU32(a) as int + ToU32(b);
    RemainderUnique(a + b, 0x1_0000_0000, p + q + r / 0x1_0000_0000, r % 0x1_0000_0000);
  }

  lemma OrLowHalfword(rs: U64, imm: U16)
    ensures Words.Or64(rs, imm) == ToU64(rs / 0x1_0000 * 0x1_0000 + Or32(rs % 0x1_0000, imm))
  {
    hide BitOr, Shl, Shr, LowBits, Pow2;
    Pow2Values();
    BitOrLow(rs, imm, 16);
    ShiftMeaning(rs, 16);
    ShiftMeaning(Shr(rs, 16), 16);
  }

  lemma AndLowHalfword(rs: U64, imm: U16)
    ensures Words.And64(rs, imm) == Words.And64(rs % 0x1_0000, imm)
  {
    hide BitAnd, LowBits, Pow2;
    Pow2Values();
    BitAndLow(rs, imm, 16);
    ShiftMeaning(rs, 16);
  }

  lemma MtsahAgrees(source: U64, imm: U16)
    ensures ToU32(Shl(Xor32(And32(ToU32(source), 7), And32(ToU32(imm), 7)), 1)) ==
            ToU32(2 * Xor32(source % 8, imm % 8))
  {
    hide BitAnd, BitXor, LowBits, Pow2;
    Pow2Values();
    BitAndLowMask(ToU32(source), 3);
    BitAndLowMask(imm, 3);
    ModEight(source);
    var x := Xor32(source % 8, imm % 8);
    assert Shl(x, 1) == 2 * Shl(x, 0);
  }

  lemma ModEight(source: U64)
    ensures ToU32(source) % 8 == source % 8
  {
  }

  lemma PackedSumAgrees(a: GprValue, b: GprValue)
    ensures E.AddLanes(a, b, 0, ZERO_GPR) == PackedSum(a, b)
  {
    hide E.PackedLane, E.AddLanes;
    E.AddLanesMeaning(a, b);
    E.PackedLaneMeaning(a);
    E.PackedLaneMeaning(b);
  }

  /** The claim of StepIsEffect for one instruction. */
  predicate Agrees(fadd: F32Add, decoded: D.Decoded, guestPc: U32, s: State)
    requires L.RegisterFields(decoded) && L.Lower(decoded, guestPc).Lowered?
  {
    var op := DecodedMnemonic(decoded.instruction, decoded.rd);
    op.Some? &&
    E.Step(fadd, L.Lower(decoded, guestPc).instructions[0], s) ==
    Effect(fadd, op.value, OperandFields(decoded.rs, decoded.rt, decoded.rd, decoded.immediate), s)
  }

  lemma AdduAgrees(fadd: F32Add, decoded: D.Decoded, guestPc: U32, s: State)
    requires L.RegisterFields(decoded) && decoded.instruction == D.Addu
    ensures Agrees(fadd, decoded, guestPc, s)
  {
    hide E.SignExtendWord, Word, E.AddLanes, PackedSum;
    var rs, rt := s.gpr[decoded.rs].low64, s.gpr[decoded.rt].low64;
    SignExtensionAgrees(rs as int + rt);
    AddressableSum(rs, rt);
    assert ToU32(ToU64(rt)) == ToU32(rt) by {
      ToU32OfToU64(rt);
    }
  }

  lemma AddiuAgrees(fadd: F32Add, decoded: D.Decoded, guestPc: U32, s: State)
    requires L.RegisterFields(decoded) && decoded.instruction == D.Addiu
    ensures Agrees(fadd, decoded, guestPc, s)
  {
    hide E.SignExtendWord, Word, E.AddLanes, PackedSum, ToU64;
    var rs, imm := s.gpr[decoded.rs].low64, decoded.SignedImmediate();
    SignExtensionAgrees(rs + imm);
    AddressableSum(rs, imm);
  }

  lemma BitwiseAgrees(fadd: F32Add, decoded: D.Decoded, guestPc: U32, s: State)
    requires L.RegisterFields(decoded) && decoded.instruction in {D.Ori, D.Andi}
    ensures Agrees(fadd, decoded, guestPc, s)
  {
    var rs := s.gpr[decoded.rs].low64;
    assert ToU64(decoded.immediate) == decoded.immediate;
    if decoded.instruction == D.Ori {
      OrLowHalfword(rs, decoded.immediate);
    } else {
      AndLowHalfword(rs, decoded.immediate);
    }
    hide Words.Or64, Words.And64, Or32, ToU64;
  }

  lemma LuiAgrees(fadd: F32Add, decoded: D.Decoded, guestPc: U32, s: State)
    requires L.RegisterFields(decoded) && decoded.instruction == D.Lui
    ensures Agrees(fadd, decoded, guestPc, s)
  {
    assert decoded.immediate % 0x1_0000 == decoded.immediate;
    SignExtensionAgrees(decoded.immediate * 0x1_0000);
  }

  lemma MtsahStepAgrees(fadd: F32Add, decoded: D.Decoded, guestPc: U32, s: State)
    requires L.RegisterFields(decoded) && decoded.instruction == D.Mtsah
    ensures Agrees(fadd, decoded, guestPc, s)
  {
    hide BitAnd, BitXor, Shl;
    MtsahAgrees(s.gpr[decoded.rs].low64, decoded.immediate);
  }

  lemma PadduwStepAgrees(fadd: F32Add, decoded: D.Decoded, guestPc: U32, s: State)
    requires L.RegisterFields(decoded) && decoded.instruction == D.Padduw
    ensures Agrees(fadd, decoded, guestPc, s)
  {
    hide E.AddLanes, PackedSum;
    PackedSumAgrees(s.gpr[decoded.rs], s.gpr[decoded.rt]);
  }

  lemma HiLoMoveAgrees(fadd: F32Add, decoded: D.Decoded, guestPc: U32, s: State)
    requires L.RegisterFields(decoded)
    requires decoded.instruction in {D.Nop, D.Sync, D.Mthi, D.Mtlo, D.Mthi1, D.Mtlo1}
    ensures Agrees(fadd, decoded, guestPc, s)
  {
    hide E.AddLanes, PackedSum, BitAnd, BitOr, BitXor, Shl, E.SignExtendWord, Word, ToU32;
  }

  lemma FpMoveAgrees(fadd: F32Add, decoded: D.Decoded, guestPc: U32, s: State)
    requires L.RegisterFields(decoded)
    requires decoded.instruction in {D.Mtc1, D.AddaS} || (decoded.instruction == D.Ctc1 && decoded.rd == 31)
    ensures Agrees(fadd, decoded, guestPc, s)
  {
    hide E.AddLanes, PackedSum, BitAnd, BitOr, BitXor, Shl, E.SignExtendWord, Word;
  }

  /** Executing the lowered instruction is the architectural effect. */
  lemma StepIsEffect(fadd: F32Add, decoded: D.Decoded, guestPc: U32, s: State)
    requires L.RegisterFields(decoded) && L.Lower(decoded, guestPc).Lowered?
    ensures Agrees(fadd, decoded, guestPc, s)
  {
    hide Agrees;
    if decoded.instruction == D.Addu {
      AdduAgrees(fadd, decoded, guestPc, s);
    } else if decoded.instruction == D.Addiu {
      AddiuAgrees(fadd, decoded, guestPc, s);
    } else if decoded.instruction in {D.Ori, D.Andi} {
      BitwiseAgrees(fadd, decoded, guestPc, s);
    } else if decoded.instruction == D.Lui {
      LuiAgrees(fadd, decoded, guestPc, s);
    } else if decoded.instruction == D.Mtsah {
      MtsahStepAgrees(fadd, decoded, guestPc, s);
    } else if decoded.instruction == D.Padduw {
      PadduwStepAgrees(fadd, decoded, guestPc, s);
    } else if decoded.instruction in {D.Mtc1, D.AddaS, D.Ctc1} {
      FpMoveAgrees(fadd, decoded, guestPc, s);
    } else {
      HiLoMoveAgrees(fadd, decoded, guestPc, s);
    }
  }

  lemma ExecuteOne(fadd: F32Add, ir: IrInstruction, s: State)
    requires WellShaped(ir)
    ensures E.Execute(fadd, [ir], s) == E.ExecutionResult(E.NoError, E.Step(fadd, ir, E.NormalizeZero(s)))
  {
    hide E.Step;
    ValidIffWellShaped(ir);
    var z := E.NormalizeZero(s);
    var next := E.Step(fadd, ir, z);
    assert [ir][1..] == [];
    E.StepKeepsGprZero(fadd, ir, z);
    assert next.gpr[0 := ZERO_GPR] == next.gpr;
    assert E.ExecuteFrom(fadd, [], next) == E.ExecutionResult(E.NoError, next);
  }

  /** Front-end correctness: a word lowers exactly when it is a supported
      instruction, and then executing what it lowers to, from any state, has
      exactly the architectural effect of the word. */
  lemma FrontEndCorrect(fadd: F32Add, word: U32, guestPc: U32, s: State)
    ensures var lowered := L.Lower(D.Decode(word), guestPc);
            var expected := IsaStep(fadd, word, E.NormalizeZero(s));
            && (lowered.Lowered? <==> expected.Some?)
            && (lowered.Lowered? ==>
                  E.Execute(fadd, lowered.instructions, s) == E.ExecutionResult(E.NoError, expected.value))
  {
    var decoded := D.Decode(word);
    hide D.Classify, L.Lower, E.Step, Effect, Identify, DecodedMnemonic, E.ExecuteFrom;
    DecoderIdentifies(word, D.Primary(word), D.Rs(word), D.Rt(word), D.Rd(word), D.Sa(word), D.Funct(word));
    LoweringSupports(decoded, guestPc);
    if L.Lower(decoded, guestPc).Lowered? {
      var ir := L.Lower(decoded, guestPc).instructions[0];
      StepIsEffect(fadd, decoded, guestPc, E.NormalizeZero(s));
      ExecuteOne(fadd, ir, s);
      assert L.Lower(decoded, guestPc).instructions == [ir];
    }
  }
}
