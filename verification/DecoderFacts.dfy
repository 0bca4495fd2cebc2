/** What the decoder means, read from the instructions instead of the opcode tables:
    the fields of a word, the encoding and the attributes of every instruction, and
    the target of a branch (src/recompiler/r5900_decoder.cpp). */
module DecoderFacts {
  import opened Words
  import opened Decoder

  // ---------------------------------------------------------------- fields

  lemma SplitLow(w: nat, a: nat, b: nat)
    requires a > 0 && b > 0
    ensures w % (b * a) == (w / a % b) * a + w % a
  {
    var q, r := w / a, w % a;
    var q2, r2 := q / b, q % b;
    assert w == q * a + r && q == q2 * b + r2;
    assert (q2 * b + r2) * a == q2 * (b * a) + r2 * a by {
      MulAssoc(q2, b, a);
    }
    MulGap(r2, b, a);
    RemainderUnique(w, b * a, q2, r2 * a + r);
  }

  /** The six fields partition the word; the immediate and the jump index are its low
      16 and 26 bits. */
  lemma FieldsRecombine(word: U32)
    ensures var d := Decode(word);
            && d.primaryOpcode < 64 && d.rs < 32 && d.rt < 32 && d.rd < 32 && d.sa < 32 && d.funct < 64
            && word == 0x400_0000 * d.primaryOpcode + 0x20_0000 * d.rs + 0x1_0000 * d.rt + 0x800 * d.rd + 0x40 * d.sa +
                       d.funct
            && d.immediate == 0x800 * d.rd + 0x40 * d.sa + d.funct
            && d.target == 0x20_0000 * d.rs + 0x1_0000 * d.rt + d.immediate
  {
    hide Classify, Consistent;
    SplitLow(word, 0x40, 0x20);
    SplitLow(word, 0x800, 0x20);
    SplitLow(word, 0x1_0000, 0x20);
    SplitLow(word, 0x20_0000, 0x20);
    SplitLow(word, 0x400_0000, 0x40);
  }

  // ---------------------------------------------------------------- encodings

  /** The function code of an instruction under primary opcode 0. */
  function SpecialCode(i: Instruction): int {
    match i
    case Sll => 0x00
    case Srl => 0x02
    case Sra => 0x03
    case Sllv => 0x04
    case Srlv => 0x06
    case Srav => 0x07
    case Jr => 0x08
    case Jalr => 0x09
    case Syscall => 0x0C
    case Break => 0x0D
    case Sync => 0x0F
    case Mfhi => 0x10
    case Mthi => 0x11
    case Mflo => 0x12
    case Mtlo => 0x13
    case Mult => 0x18
    case Multu => 0x19
    case Div => 0x1A
    case Divu => 0x1B
    case Add => 0x20
    case Addu => 0x21
    case Sub => 0x22
    case Subu => 0x23
    case And => 0x24
    case Or => 0x25
    case Xor => 0x26
    case Nor => 0x27
    case Slt => 0x2A
    case Sltu => 0x2B
    case _ => -1
  }

  /** The rt code of an instruction under primary opcode 1. */
  function RegimmCode(i: Instruction): int {
    match i
    case Bltz => 0x00
    case Bgez => 0x01
    case Bltzl => 0x02
    case Bgezl => 0x03
    case Bltzal => 0x10
    case Bgezal => 0x11
    case Bltzall => 0x12
    case Bgezall => 0x13
    case Mtsah => 0x19
    case _ => -1
  }

  /** The primary opcode of a jump, branch or immediate instruction. */
  function OpcodeCode(i: Instruction): int {
    match i
    case J => 0x02
    case Jal => 0x03
    case Beq => 0x04
    case Bne => 0x05
    case Blez => 0x06
    case Bgtz => 0x07
    case Addi => 0x08
    case Addiu => 0x09
    case Slti => 0x0A
    case Sltiu => 0x0B
    case Andi => 0x0C
    case Ori => 0x0D
    case Xori => 0x0E
    case Lui => 0x0F
    case Beql => 0x14
    case Bnel => 0x15
    case Blezl => 0x16
    case Bgtzl => 0x17
    case Daddi => 0x18
    case Daddiu => 0x19
    case _ => -1
  }

  /** The primary opcode of a load or store. */
  function AccessCode(i: Instruction): int {
    match i
    case Ldl => 0x1A
    case Ldr => 0x1B
    case Lq => 0x1E
    case Sq => 0x1F
    case Lb => 0x20
    case Lh => 0x21
    case Lwl => 0x22
    case Lw => 0x23
    case Lbu => 0x24
    case Lhu => 0x25
    case Lwr => 0x26
    case Lwu => 0x27
    case Sb => 0x28
    case Sh => 0x29
    case Swl => 0x2A
    case Sw => 0x2B
    case Sdl => 0x2C
    case Sdr => 0x2D
    case Swr => 0x2E
    case Lwc1 => 0x31
    case Lqc2 => 0x36
    case Ld => 0x37
    case Swc1 => 0x39
    case Sqc2 => 0x3E
    case Sd => 0x3F
    case _ => -1
  }

  /** The encoding of every instruction. */
  predicate Encodes(i: Instruction, raw: U32, primary: U8, rs: U8, rt: U8, sa: U8, funct: U8) {
    || (i == Nop && raw == 0)
    || (raw != 0 && primary == 0 && SpecialCode(i) == funct)
    || (primary == 1 && RegimmCode(i) == rt)
    || OpcodeCode(i) == primary
    || AccessCode(i) == primary
    || (i == Mtc1 && primary == 0x11 && rs == 0x04)
    || (i == Ctc1 && primary == 0x11 && rs == 0x06)
    || (i == AddaS && primary == 0x11 && rs == 0x10 && funct == 0x18)
    || (i == Mthi1 && primary == 0x1C && funct == 0x11)
    || (i == Mtlo1 && primary == 0x1C && funct == 0x13)
    || (i == Padduw && primary == 0x1C && funct == 0x28 && sa == 0x10)
  }

  lemma SpecialTable0(raw: U32, funct: U8)
    requires raw != 0 && funct < 0x0F
    ensures var i := DecodeSpecial(raw, funct).instruction; i != Unknown ==> SpecialCode(i) == funct
  {
    hide Consistent;
  }

  lemma SpecialTable1(raw: U32, funct: U8)
    requires raw != 0 && 0x0F <= funct < 0x21
    ensures var i := DecodeSpecial(raw, funct).instruction; i != Unknown ==> SpecialCode(i) == funct
  {
    hide Consistent;
  }

  lemma SpecialTable2(raw: U32, funct: U8)
    requires raw != 0 && 0x21 <= funct < 0x40
    ensures var i := DecodeSpecial(raw, funct).instruction; i != Unknown ==> SpecialCode(i) == funct
  {
    hide Consistent;
  }

  lemma SpecialTable(raw: U32, funct: U8)
    requires raw != 0 && funct < 0x40
    ensures var i := DecodeSpecial(raw, funct).instruction; i != Unknown ==> SpecialCode(i) == funct
  {
    hide DecodeSpecial, SpecialCode;
    if funct < 0x0F {
      SpecialTable0(raw, funct);
    } else if funct < 0x21 {
      SpecialTable1(raw, funct);
    } else if funct < 0x40 {
      SpecialTable2(raw, funct);
    }
  }

  lemma RegimmTable0(rt: U8)
    requires rt < 0x20
    ensures var i := DecodeRegimm(rt).instruction; i != Unknown ==> RegimmCode(i) == rt
  {
    hide Consistent;
  }

  lemma RegimmTable(rt: U8)
    requires rt < 0x20
    ensures var i := DecodeRegimm(rt).instruction; i != Unknown ==> RegimmCode(i) == rt
  {
    hide DecodeRegimm, RegimmCode;
    if rt < 0x20 {
      RegimmTable0(rt);
    }
  }

  lemma OpcodeTable0(raw: U32, primary: U8, rs: U8, rt: U8, sa: U8, funct: U8)
    requires 0x02 <= primary < 0x0A
    ensures var i := Classify(raw, primary, rs, rt, sa, funct).instruction; i != Unknown ==> OpcodeCode(i) == primary
  {
    hide DecodeSpecial, DecodeRegimm, DecodeCop1, DecodeMmi, Consistent;
  }

  lemma OpcodeTable1(raw: U32, primary: U8, rs: U8, rt: U8, sa: U8, funct: U8)
    requires 0x0A <= primary < 0x11
    ensures var i := Classify(raw, primary, rs, rt, sa, funct).instruction; i != Unknown ==> OpcodeCode(i) == primary
  {
    hide DecodeSpecial, DecodeRegimm, DecodeCop1, DecodeMmi, Consistent;
  }

  lemma OpcodeTable(raw: U32, primary: U8, rs: U8, rt: U8, sa: U8, funct: U8)
    requires 0x02 <= primary < 0x11
    ensures var i := Classify(raw, primary, rs, rt, sa, funct).instruction; i != Unknown ==> OpcodeCode(i) == primary
  {
    hide Classify, OpcodeCode;
    if primary < 0x0A {
      OpcodeTable0(raw, primary, rs, rt, sa, funct);
    } else if primary < 0x11 {
      OpcodeTable1(raw, primary, rs, rt, sa, funct);
    }
  }

  lemma BranchingTable0(raw: U32, primary: U8, rs: U8, rt: U8, sa: U8, funct: U8)
    requires 0x12 <= primary < 0x1A
    ensures var i := Classify(raw, primary, rs, rt, sa, funct).instruction; i != Unknown ==> OpcodeCode(i) == primary
  {
    hide DecodeSpecial, DecodeRegimm, DecodeCop1, DecodeMmi, Consistent;
  }

  lemma BranchingTable(raw: U32, primary: U8, rs: U8, rt: U8, sa: U8, funct: U8)
    requires 0x12 <= primary < 0x1A
    ensures var i := Classify(raw, primary, rs, rt, sa, funct).instruction; i != Unknown ==> OpcodeCode(i) == primary
  {
    hide Classify, OpcodeCode;
    if primary < 0x1A {
      BranchingTable0(raw, primary, rs, rt, sa, funct);
    }
  }

  lemma UnalignedTable0(raw: U32, primary: U8, rs: U8, rt: U8, sa: U8, funct: U8)
    requires 0x1A <= primary < 0x1C
    ensures var i := Classify(raw, primary, rs, rt, sa, funct).instruction; i != Unknown ==> AccessCode(i) == primary
  {
    hide DecodeSpecial, DecodeRegimm, DecodeCop1, DecodeMmi, Consistent;
  }

  lemma UnalignedTable(raw: U32, primary: U8, rs: U8, rt: U8, sa: U8, funct: U8)
    requires 0x1A <= primary < 0x1C
    ensures var i := Classify(raw, primary, rs, rt, sa, funct).instruction; i != Unknown ==> AccessCode(i) == primary
  {
    hide Classify, AccessCode;
    if primary < 0x1C {
      UnalignedTable0(raw, primary, rs, rt, sa, funct);
    }
  }

  lemma AccessTable0(raw: U32, primary: U8, rs: U8, rt: U8, sa: U8, funct: U8)
    requires 0x1D <= primary < 0x27
    ensures var i := Classify(raw, primary, rs, rt, sa, funct).instruction; i != Unknown ==> AccessCode(i) == primary
  {
    hide DecodeSpecial, DecodeRegimm, DecodeCop1, DecodeMmi, Consistent;
  }

  lemma AccessTable1(raw: U32, primary: U8, rs: U8, rt: U8, sa: U8, funct: U8)
    requires 0x27 <= primary < 0x36
    ensures var i := Classify(raw, primary, rs, rt, sa, funct).instruction; i != Unknown ==> AccessCode(i) == primary
  {
    hide DecodeSpecial, DecodeRegimm, DecodeCop1, DecodeMmi, Consistent;
  }

  lemma AccessTable2(raw: U32, primary: U8, rs: U8, rt: U8, sa: U8, funct: U8)
    requires 0x36 <= primary < 0x40
    ensures var i := Classify(raw, primary, rs, rt, sa, funct).instruction; i != Unknown ==> AccessCode(i) == primary
  {
    hide DecodeSpecial, DecodeRegimm, DecodeCop1, DecodeMmi, Consistent;
  }

  lemma AccessTable(raw: U32, primary: U8, rs: U8, rt: U8, sa: U8, funct: U8)
    requires 0x1D <= primary < 0x40
    ensures var i := Classify(raw, primary, rs, rt, sa, funct).instruction; i != Unknown ==> AccessCode(i) == primary
  {
    hide Classify, AccessCode;
    if primary < 0x27 {
      AccessTable0(raw, primary, rs, rt, sa, funct);
    } else if primary < 0x36 {
      AccessTable1(raw, primary, rs, rt, sa, funct);
    } else if primary < 0x40 {
      AccessTable2(raw, primary, rs, rt, sa, funct);
    }
  }

  lemma SpecialEntries0(i: Instruction, raw: U32)
    requires raw != 0 && 0x00 <= SpecialCode(i) < 0x0F
    ensures DecodeSpecial(raw, SpecialCode(i)).instruction == i
  {
    hide Consistent;
  }

  lemma SpecialEntries1(i: Instruction, raw: U32)
    requires raw != 0 && 0x0F <= SpecialCode(i) < 0x21
    ensures DecodeSpecial(raw, SpecialCode(i)).instruction == i
  {
    hide Consistent;
  }

  lemma SpecialEntries2(i: Instruction, raw: U32)
    requires raw != 0 && 0x21 <= SpecialCode(i) < 0x2C
    ensures DecodeSpecial(raw, SpecialCode(i)).instruction == i
  {
    hide Consistent;
  }

  lemma SpecialCodeBound(i: Instruction)
    ensures SpecialCode(i) == -1 || 0x00 <= SpecialCode(i) < 0x2C
  {
  }

  lemma RegimmCodeBound(i: Instruction)
    ensures RegimmCode(i) == -1 || 0x00 <= RegimmCode(i) < 0x1A
  {
  }

  lemma OpcodeCodeBound(i: Instruction)
    ensures OpcodeCode(i) == -1 || 0x02 <= OpcodeCode(i) < 0x1A
  {
  }

  lemma AccessCodeBound(i: Instruction)
    ensures AccessCode(i) == -1 || 0x1A <= AccessCode(i) < 0x40
  {
  }

  lemma SpecialEntries(i: Instruction, raw: U32)
    requires raw != 0 && 0 <= SpecialCode(i)
    ensures SpecialCode(i) < 0x40 && DecodeSpecial(raw, SpecialCode(i)).instruction == i
  {
    hide DecodeSpecial, SpecialCode;
    SpecialCodeBound(i);
    if SpecialCode(i) < 0x0F {
      SpecialEntries0(i, raw);
    } else if SpecialCode(i) < 0x21 {
      SpecialEntries1(i, raw);
    } else {
      SpecialEntries2(i, raw);
    }
  }

  lemma RegimmEntries(i: Instruction)
    requires 0 <= RegimmCode(i) < 0x1A
    ensures DecodeRegimm(RegimmCode(i)).instruction == i
  {
    hide Consistent;
  }

  lemma OpcodeEntries0(i: Instruction, raw: U32, rs: U8, rt: U8, sa: U8, funct: U8)
    requires 0x02 <= OpcodeCode(i) < 0x0A
    ensures Classify(raw, OpcodeCode(i), rs, rt, sa, funct).instruction == i
  {
    hide DecodeSpecial, DecodeRegimm, DecodeCop1, DecodeMmi, Consistent;
  }

  lemma OpcodeEntries1(i: Instruction, raw: U32, rs: U8, rt: U8, sa: U8, funct: U8)
    requires 0x0A <= OpcodeCode(i) < 0x16
    ensures Classify(raw, OpcodeCode(i), rs, rt, sa, funct).instruction == i
  {
    hide DecodeSpecial, DecodeRegimm, DecodeCop1, DecodeMmi, Consistent;
  }

  lemma OpcodeEntries2(i: Instruction, raw: U32, rs: U8, rt: U8, sa: U8, funct: U8)
    requires 0x16 <= OpcodeCode(i) < 0x1A
    ensures Classify(raw, OpcodeCode(i), rs, rt, sa, funct).instruction == i
  {
    hide DecodeSpecial, DecodeRegimm, DecodeCop1, DecodeMmi, Consistent;
  }

  lemma OpcodeEntries(i: Instruction, raw: U32, rs: U8, rt: U8, sa: U8, funct: U8)
    requires 0 <= OpcodeCode(i)
    ensures OpcodeCode(i) < 0x40 && Classify(raw, OpcodeCode(i), rs, rt, sa, funct).instruction == i
  {
    hide Classify, OpcodeCode;
    OpcodeCodeBound(i);
    if OpcodeCode(i) < 0x0A {
      OpcodeEntries0(i, raw, rs, rt, sa, funct);
    } else if OpcodeCode(i) < 0x16 {
      OpcodeEntries1(i, raw, rs, rt, sa, funct);
    } else {
      OpcodeEntries2(i, raw, rs, rt, sa, funct);
    }
  }

  lemma AccessEntries0(i: Instruction, raw: U32, rs: U8, rt: U8, sa: U8, funct: U8)
    requires 0x1A <= AccessCode(i) < 0x25
    ensures Classify(raw, AccessCode(i), rs, rt, sa, funct).instruction == i
  {
    hide DecodeSpecial, DecodeRegimm, DecodeCop1, DecodeMmi, Consistent;
  }

  lemma AccessEntries1(i: Instruction, raw: U32, rs: U8, rt: U8, sa: U8, funct: U8)
    requires 0x25 <= AccessCode(i) < 0x2E
    ensures Classify(raw, AccessCode(i), rs, rt, sa, funct).instruction == i
  {
    hide DecodeSpecial, DecodeRegimm, DecodeCop1, DecodeMmi, Consistent;
  }

  lemma AccessEntries2(i: Instruction, raw: U32, rs: U8, rt: U8, sa: U8, funct: U8)
    requires 0x2E <= AccessCode(i) < 0x40
    ensures Classify(raw, AccessCode(i), rs, rt, sa, funct).instruction == i
  {
    hide DecodeSpecial, DecodeRegimm, DecodeCop1, DecodeMmi, Consistent;
  }

  lemma AccessEntries(i: Instruction, raw: U32, rs: U8, rt: U8, sa: U8, funct: U8)
    requires 0 <= AccessCode(i)
    ensures AccessCode(i) < 0x40 && Classify(raw, AccessCode(i), rs, rt, sa, funct).instruction == i
  {
    hide Classify, AccessCode;
    AccessCodeBound(i);
    if AccessCode(i) < 0x25 {
      AccessEntries0(i, raw, rs, rt, sa, funct);
    } else if AccessCode(i) < 0x2E {
      AccessEntries1(i, raw, rs, rt, sa, funct);
    } else {
      AccessEntries2(i, raw, rs, rt, sa, funct);
    }
  }

  lemma SmallTables(rs: U8, funct: U8, sa: U8)
    ensures var i := DecodeCop1(rs, funct).instruction;
            if rs == 0x04 then i == Mtc1 else if rs == 0x06 then i == Ctc1
            else if rs == 0x10 && funct == 0x18 then i == AddaS else i == Unknown
    ensures var i := DecodeMmi(funct, sa).instruction;
            if funct == 0x11 then i == Mthi1 else if funct == 0x13 then i == Mtlo1
            else if funct == 0x28 && sa == 0x10 then i == Padduw else i == Unknown
  {
    hide Consistent;
  }

  lemma SelectsSubtable(raw: U32, rs: U8, rt: U8, sa: U8, funct: U8)
    ensures Classify(raw, 0, rs, rt, sa, funct) == DecodeSpecial(raw, funct)
    ensures Classify(raw, 1, rs, rt, sa, funct) == DecodeRegimm(rt)
    ensures Classify(raw, 0x11, rs, rt, sa, funct) == DecodeCop1(rs, funct)
    ensures Classify(raw, 0x1C, rs, rt, sa, funct) == DecodeMmi(funct, sa)
    ensures DecodeSpecial(0, funct).instruction == Nop
  {
    hide DecodeRegimm, DecodeCop1, DecodeMmi, Consistent;
  }

  /** What a word decodes to is encoded by it. */
  lemma DecodedIsEncoded(raw: U32, primary: U8, rs: U8, rt: U8, sa: U8, funct: U8)
    requires (raw == 0 ==> primary == 0) && primary < 0x40 && rt < 0x20 && funct < 0x40
    ensures var i := Classify(raw, primary, rs, rt, sa, funct).instruction;
            i != Unknown ==> Encodes(i, raw, primary, rs, rt, sa, funct)
  {
    hide SpecialCode, RegimmCode, OpcodeCode, AccessCode, Classify, DecodeSpecial, DecodeRegimm, DecodeCop1, DecodeMmi,
      Consistent;
    SelectsSubtable(raw, rs, rt, sa, funct);
    SmallTables(rs, funct, sa);
    if primary == 0 {
      if raw != 0 {
        SpecialTable(raw, funct);
      }
    } else if primary == 1 {
      RegimmTable(rt);
    } else if primary < 0x11 {
      OpcodeTable(raw, primary, rs, rt, sa, funct);
    } else if 0x12 <= primary < 0x1A {
      BranchingTable(raw, primary, rs, rt, sa, funct);
    } else if 0x1A <= primary < 0x1C {
      UnalignedTable(raw, primary, rs, rt, sa, funct);
    } else if 0x1D <= primary {
      AccessTable(raw, primary, rs, rt, sa, funct);
    }
  }

  /** What a word encodes it decodes to. */
  lemma EncodedIsDecoded(i: Instruction, raw: U32, primary: U8, rs: U8, rt: U8, sa: U8, funct: U8)
    requires (raw == 0 ==> primary == 0) && Encodes(i, raw, primary, rs, rt, sa, funct)
    ensures Classify(raw, primary, rs, rt, sa, funct).instruction == i
  {
    hide SpecialCode, RegimmCode, OpcodeCode, AccessCode, Classify, DecodeSpecial, DecodeRegimm, DecodeCop1, DecodeMmi,
      Consistent;
    SelectsSubtable(raw, rs, rt, sa, funct);
    SmallTables(rs, funct, sa);
    if raw != 0 && primary == 0 && SpecialCode(i) == funct {
      SpecialEntries(i, raw);
    } else if primary == 1 && RegimmCode(i) == rt {
      RegimmCodeBound(i);
      RegimmEntries(i);
    } else if OpcodeCode(i) == primary {
      OpcodeEntries(i, raw, rs, rt, sa, funct);
    } else if AccessCode(i) == primary {
      AccessEntries(i, raw, rs, rt, sa, funct);
    }
  }

  lemma UnknownIsNotEncoded(raw: U32, primary: U8, rs: U8, rt: U8, sa: U8, funct: U8)
    ensures !Encodes(Unknown, raw, primary, rs, rt, sa, funct)
  {
  }

  predicate EncodedBy(word: U32, i: Instruction) {
    Encodes(i, word, Primary(word), Rs(word), Rt(word), Sa(word), Funct(word))
  }

  /** The decoder inverts the encodings: a word decodes to an instruction exactly when
      it encodes it, and to Unknown exactly when it encodes none. */
  lemma DecodesExactly(word: U32, i: Instruction)
    ensures i != Unknown ==> (Decode(word).instruction == i <==> EncodedBy(word, i))
    ensures Decode(word).instruction == Unknown <==> forall j :: !EncodedBy(word, j)
  {
    hide Classify, Encodes, Consistent;
    DecodedIsEncoded(word, Primary(word), Rs(word), Rt(word), Sa(word), Funct(word));
    UnknownIsNotEncoded(word, Primary(word), Rs(word), Rt(word), Sa(word), Funct(word));
    forall j | EncodedBy(word, j)
      ensures Decode(word).instruction == j && j != Unknown
    {
      EncodedIsDecoded(j, word, Primary(word), Rs(word), Rt(word), Sa(word), Funct(word));
    }
    if Decode(word).instruction != Unknown {
      assert EncodedBy(word, Decode(word).instruction);
    }
  }

  // ---------------------------------------------------------------- attributes

  predicate BranchCode(primary: U8, rt: U8) {
    4 <= primary <= 7 || 0x14 <= primary <= 0x17 || (primary == 1 && (rt <= 3 || 0x10 <= rt <= 0x13))
  }

  predicate JumpCode(primary: U8, funct: U8) {
    primary == 2 || primary == 3 || (primary == 0 && (funct == 8 || funct == 9))
  }

  predicate TrapCode(primary: U8, funct: U8) { primary == 0 && (funct == 0x0C || funct == 0x0D) }

  predicate LoadCode(primary: U8) {
    || primary == 0x1A || primary == 0x1B || primary == 0x1E || 0x20 <= primary <= 0x27 || primary == 0x31
    || primary == 0x36 || primary == 0x37
  }

  predicate StoreCode(primary: U8) {
    primary == 0x1F || 0x28 <= primary <= 0x2E || primary == 0x39 || primary == 0x3E || primary == 0x3F
  }

  function WidthCode(primary: U8): MemoryWidth {
    if primary == 0x20 || primary == 0x24 || primary == 0x28 then Byte
    else if primary == 0x21 || primary == 0x25 || primary == 0x29 then Halfword
    else if primary == 0x1E || primary == 0x1F || primary == 0x36 || primary == 0x3E then Quadword128
    else if primary == 0x1A || primary == 0x1B || primary == 0x2C || primary == 0x2D then Doubleword64
    else if primary == 0x37 || primary == 0x3F then Doubleword64
    else if LoadCode(primary) || StoreCode(primary) then Word
    else NoWidth
  }

  predicate LikelyCode(primary: U8, rt: U8) {
    0x14 <= primary <= 0x17 || (primary == 1 && (rt == 2 || rt == 3 || rt == 0x12 || rt == 0x13))
  }

  predicate LinkCode(primary: U8, rt: U8, funct: U8) {
    primary == 3 || (primary == 0 && funct == 9) || (primary == 1 && 0x10 <= rt <= 0x13)
  }

  predicate AttributesAre(c: Classification, primary: U8, rt: U8, funct: U8) {
    && (c.instructionClass == Branch <==> BranchCode(primary, rt))
    && (c.instructionClass == Jump <==> JumpCode(primary, funct))
    && (c.instructionClass == System <==> TrapCode(primary, funct))
    && (c.instructionClass == Load <==> LoadCode(primary)) && (c.instructionClass == Store <==> StoreCode(primary))
    && c.memoryWidth == WidthCode(primary)
    && (c.likely <==> LikelyCode(primary, rt)) && (c.link <==> LinkCode(primary, rt, funct))
  }

  lemma SpecialAttributes(raw: U32, rt: U8, funct: U8)
    requires raw == 0 ==> funct == 0
    ensures AttributesAre(DecodeSpecial(raw, funct), 0, rt, funct)
  {
    hide Consistent;
  }

  lemma RegimmAttributes(rt: U8, funct: U8)
    ensures AttributesAre(DecodeRegimm(rt), 1, rt, funct)
  {
    hide Consistent;
  }

  lemma SmallTableAttributes(rs: U8, rt: U8, funct: U8, sa: U8)
    ensures AttributesAre(DecodeCop1(rs, funct), 0x11, rt, funct)
    ensures AttributesAre(DecodeMmi(funct, sa), 0x1C, rt, funct)
  {
    hide Consistent;
  }

  lemma LowPrimaryAttributes(raw: U32, primary: U8, rs: U8, rt: U8, sa: U8, funct: U8)
    requires primary !in {0, 1, 0x11, 0x1C} && primary < 0x20
    ensures AttributesAre(Classify(raw, primary, rs, rt, sa, funct), primary, rt, funct)
  {
    hide DecodeSpecial, DecodeRegimm, DecodeCop1, DecodeMmi, Consistent;
  }

  lemma HighPrimaryAttributes(raw: U32, primary: U8, rs: U8, rt: U8, sa: U8, funct: U8)
    requires primary >= 0x20
    ensures AttributesAre(Classify(raw, primary, rs, rt, sa, funct), primary, rt, funct)
  {
    hide DecodeSpecial, DecodeRegimm, DecodeCop1, DecodeMmi, Consistent;
  }

  /** Class, access width, likely and link flags follow the codes of the word; exactly
      branches and jumps have a delay slot, and exactly words that decode to nothing
      have no class. */
  lemma DecodedAttributes(word: U32)
    ensures var d := Decode(word);
            && AttributesAre(Classification(d.instruction, d.instructionClass, d.memoryWidth, d.hasDelaySlot, d.link,
                                            d.likely), d.primaryOpcode, d.rt, d.funct)
            && (d.hasDelaySlot <==> d.IsBranch() || d.IsJump())
            && (d.instructionClass == UnknownClass <==> d.instruction == Unknown)
  {
    hide Classify, DecodeSpecial, DecodeRegimm, DecodeCop1, DecodeMmi, AttributesAre;
    var primary, rs, rt, sa, funct := Primary(word), Rs(word), Rt(word), Sa(word), Funct(word);
    SelectsSubtable(word, rs, rt, sa, funct);
    SpecialAttributes(word, rt, funct);
    RegimmAttributes(rt, funct);
    SmallTableAttributes(rs, rt, funct, sa);
    if primary !in {0, 1, 0x11, 0x1C} {
      if primary < 0x20 {
        LowPrimaryAttributes(word, primary, rs, rt, sa, funct);
      } else {
        HighPrimaryAttributes(word, primary, rs, rt, sa, funct);
      }
    }
  }

  // ---------------------------------------------------------------- branch targets

  /** A branch with a non-negative immediate i goes i + 1 words forward, one with a
      negative immediate as many words back from its delay slot; the immediate -1
      branches to the branch itself. Addresses wrap. */
  lemma BranchTarget(word: U32, pc: U32)
    requires Decode(word).IsBranch()
    ensures Decode(word).DirectTarget(pc).Some?
    ensures var i, t := word % 0x1_0000, Decode(word).DirectTarget(pc).value;
            && (i < 0x8000 ==> t == ToU32(pc + 4 * (i + 1)))
            && (i >= 0x8000 ==> ToU32(t + 4 * (0x1_0000 - i)) == ToU32(pc + 4))
            && (i == 0xFFFF ==> t == pc)
  {
    hide Classify, Consistent, JumpTarget, ToU32;
    TargetArithmetic(pc, word % 0x1_0000);
  }

  lemma TargetArithmetic(pc: U32, i: U16)
    ensures var t := ToU32(ToU32(pc + 4) + (if i < 0x8000 then i else i - 0x1_0000) * 4);
            && (i < 0x8000 ==> t == ToU32(pc + 4 * (i + 1)))
            && (i >= 0x8000 ==> ToU32(t + 4 * (0x1_0000 - i)) == ToU32(pc + 4))
            && (i == 0xFFFF ==> t == pc)
  {
    var move: int := (if i < 0x8000 then i else i - 0x1_0000) * 4;
    ReduceFirst(pc + 4, move);
    if i >= 0x8000 {
      ReduceFirst(pc + 4 + move, -move);
    }
  }

  /** Reducing a summand first does not change a sum modulo 2^32. */
  lemma ReduceFirst(x: int, y: int)
    ensures ToU32(ToU32(x) + y) == ToU32(x + y)
  {
    var q := x / 0x1_0000_0000;
    assert x == 0x1_0000_0000 * q + ToU32(x);
    var q2 := (ToU32(x) + y) / 0x1_0000_0000;
    RemainderUnique(x + y, 0x1_0000_0000, q + q2, ToU32(ToU32(x) + y));
  }
}
