/** The R5900 instruction decoder (src/recompiler/r5900_decoder.cpp). */
module Decoder {
  import opened Words
  import opened Options

  datatype Instruction =
    | Unknown | Nop | Sll | Srl | Sra | Sllv | Srlv | Srav | Jr | Jalr | Syscall | Break | Sync | Mfhi
    | Mthi | Mflo | Mtlo | Mthi1 | Mtlo1 | Mtsah | Mult | Multu | Div | Divu | Add | Addu | Sub | Subu
    | And | Or | Xor | Nor | Slt | Sltu | Padduw | Mtc1 | Ctc1 | AddaS | Bltz | Bgez | Bltzl | Bgezl
    | Bltzal | Bgezal | Bltzall | Bgezall | J | Jal | Beq | Bne | Blez | Bgtz | Addi | Addiu | Slti
    | Sltiu | Andi | Ori | Xori | Lui | Beql | Bnel | Blezl | Bgtzl | Daddi | Daddiu | Ldl | Ldr | Lq
    | Sq | Lb | Lh | Lwl | Lw | Lbu | Lhu | Lwr | Lwu | Sb | Sh | Swl | Sw | Sdl | Sdr | Swr | Lwc1
    | Lqc2 | Ld | Swc1 | Sqc2 | Sd

  datatype InstructionClass = UnknownClass | Alu | Branch | Jump | Load | Store | System

  datatype MemoryWidth = NoWidth | Byte | Halfword | Word | Doubleword64 | Quadword128

  /** What the opcode tables decide about a word. */
  datatype Classification = Classification(
    instruction: Instruction,
    instructionClass: InstructionClass,
    memoryWidth: MemoryWidth,
    hasDelaySlot: bool,
    link: bool,
    likely: bool)

  const UNCLASSIFIED := Classification(Unknown, UnknownClass, NoWidth, false, false, false)

  datatype Decoded = Decoded(
    raw: U32,
    instruction: Instruction,
    instructionClass: InstructionClass,
    memoryWidth: MemoryWidth,
    primaryOpcode: U8,
    rs: U8,
    rt: U8,
    rd: U8,
    sa: U8,
    funct: U8,
    immediate: U16,
    target: U32,
    hasDelaySlot: bool,
    link: bool,
    likely: bool)
  {
    function SignedImmediate(): int {
      if immediate < 0x8000 then immediate else immediate - 0x1_0000
    }

    predicate IsBranch() {
      instructionClass == Branch
    }

    predicate IsJump() {
      instructionClass == Jump
    }

    /** The target an immediate branch, J or JAL at pc names. */
    function DirectTarget(pc: U32): Option<U32> {
      if IsBranch() then
        Some(ToU32(ToU32(pc + 4) + SignedImmediate() * 4))
      else if instruction == J || instruction == Jal then
        Some(JumpTarget(ToU32(pc + 4), target))
      else
        None
    }
  }

  function JumpTarget(base: U32, index: U32): U32 {
    Or32(And32(base, 0xF000_0000), ToU32(And32(index, 0x03FF_FFFF) * 4))
  }

  function SetInstruction(i: Instruction, c: InstructionClass, w: MemoryWidth): Classification {
    Classification(i, c, w, false, false, false)
  }

  function MarkBranch(i: Instruction, likely: bool, link: bool): Classification {
    Classification(i, Branch, NoWidth, true, link, likely)
  }

  function MarkJump(i: Instruction, link: bool): Classification {
    Classification(i, Jump, NoWidth, true, link, false)
  }

  /** Jumps are exactly J, JAL, JR and JALR; exactly branches and jumps carry a
      delay slot; only branches can be likely; only SYSCALL and BREAK trap; no
      classified word is Unknown. */
  predicate Consistent(c: Classification) {
    && (c.instructionClass == Jump <==> c.instruction in {J, Jal, Jr, Jalr})
    && (c.hasDelaySlot <==> c.instructionClass in {Branch, Jump})
    && (c.likely ==> c.instructionClass == Branch)
    && (c.instructionClass == System <==> c.instruction in {Syscall, Break})
    && (c.instruction == Unknown <==> c.instructionClass == UnknownClass)
  }

  function DecodeSpecial(raw: U32, funct: U8): (c: Classification)
    ensures Consistent(c)
  {
    if raw == 0 then SetInstruction(Nop, Alu, NoWidth) else
    match funct
    case 0x00 => SetInstruction(Sll, Alu, NoWidth)
    case 0x02 => SetInstruction(Srl, Alu, NoWidth)
    case 0x03 => SetInstruction(Sra, Alu, NoWidth)
    case 0x04 => SetInstruction(Sllv, Alu, NoWidth)
    case 0x06 => SetInstruction(Srlv, Alu, NoWidth)
    case 0x07 => SetInstruction(Srav, Alu, NoWidth)
    case 0x08 => MarkJump(Jr, false)
    case 0x09 => MarkJump(Jalr, true)
    case 0x0C => SetInstruction(Syscall, System, NoWidth)
    case 0x0D => SetInstruction(Break, System, NoWidth)
    case 0x0F => SetInstruction(Sync, Alu, NoWidth)
    case 0x10 => SetInstruction(Mfhi, Alu, NoWidth)
    case 0x11 => SetInstruction(Mthi, Alu, NoWidth)
    case 0x12 => SetInstruction(Mflo, Alu, NoWidth)
    case 0x13 => SetInstruction(Mtlo, Alu, NoWidth)
    case 0x18 => SetInstruction(Mult, Alu, NoWidth)
    case 0x19 => SetInstruction(Multu, Alu, NoWidth)
    case 0x1A => SetInstruction(Div, Alu, NoWidth)
    case 0x1B => SetInstruction(Divu, Alu, NoWidth)
    case 0x20 => SetInstruction(Add, Alu, NoWidth)
    case 0x21 => SetInstruction(Addu, Alu, NoWidth)
    case 0x22 => SetInstruction(Sub, Alu, NoWidth)
    case 0x23 => SetInstruction(Subu, Alu, NoWidth)
    case 0x24 => SetInstruction(And, Alu, NoWidth)
    case 0x25 => SetInstruction(Or, Alu, NoWidth)
    case 0x26 => SetInstruction(Xor, Alu, NoWidth)
    case 0x27 => SetInstruction(Nor, Alu, NoWidth)
    case 0x2A => SetInstruction(Slt, Alu, NoWidth)
    case 0x2B => SetInstruction(Sltu, Alu, NoWidth)
    case _ => UNCLASSIFIED
  }

  function DecodeRegimm(rt: U8): (c: Classification)
    ensures Consistent(c)
  {
    match rt
    case 0x00 => MarkBranch(Bltz, false, false)
    case 0x01 => MarkBranch(Bgez, false, false)
    case 0x02 => MarkBranch(Bltzl, true, false)
    case 0x03 => MarkBranch(Bgezl, true, false)
    case 0x10 => MarkBranch(Bltzal, false, true)
    case 0x11 => MarkBranch(Bgezal, false, true)
    case 0x12 => MarkBranch(Bltzall, true, true)
    case 0x13 => MarkBranch(Bgezall, true, true)
    case 0x19 => SetInstruction(Mtsah, Alu, NoWidth)
    case _ => UNCLASSIFIED
  }

  function DecodeCop1(rs: U8, funct: U8): (c: Classification)
    ensures Consistent(c)
  {
    match rs
    case 0x04 => SetInstruction(Mtc1, Alu, NoWidth)
    case 0x06 => SetInstruction(Ctc1, Alu, NoWidth)
    case 0x10 => if funct == 0x18 then SetInstruction(AddaS, Alu, NoWidth) else UNCLASSIFIED
    case _ => UNCLASSIFIED
  }

  function DecodeMmi(funct: U8, sa: U8): (c: Classification)
    ensures Consistent(c)
  {
    match funct
    case 0x11 => SetInstruction(Mthi1, Alu, NoWidth)
    case 0x13 => SetInstruction(Mtlo1, Alu, NoWidth)
    case 0x28 => if sa == 0x10 then SetInstruction(Padduw, Alu, NoWidth) else UNCLASSIFIED
    case _ => UNCLASSIFIED
  }

  /** The primary opcode table, with the sub-tables it selects. */
  function Classify(raw: U32, primary: U8, rs: U8, rt: U8, sa: U8, funct: U8): (c: Classification)
    ensures Consistent(c)
  {
    match primary
    case 0x00 => DecodeSpecial(raw, funct)
    case 0x01 => DecodeRegimm(rt)
    case 0x02 => MarkJump(J, false)
    case 0x03 => MarkJump(Jal, true)
    case 0x04 => MarkBranch(Beq, false, false)
    case 0x05 => MarkBranch(Bne, false, false)
    case 0x06 => MarkBranch(Blez, false, false)
    case 0x07 => MarkBranch(Bgtz, false, false)
    case 0x08 => SetInstruction(Addi, Alu, NoWidth)
    case 0x09 => SetInstruction(Addiu, Alu, NoWidth)
    case 0x0A => SetInstruction(Slti, Alu, NoWidth)
    case 0x0B => SetInstruction(Sltiu, Alu, NoWidth)
    case 0x0C => SetInstruction(Andi, Alu, NoWidth)
    case 0x0D => SetInstruction(Ori, Alu, NoWidth)
    case 0x0E => SetInstruction(Xori, Alu, NoWidth)
    case 0x0F => SetInstruction(Lui, Alu, NoWidth)
    case 0x11 => DecodeCop1(rs, funct)
    case 0x14 => MarkBranch(Beql, true, false)
    case 0x15 => MarkBranch(Bnel, true, false)
    case 0x16 => MarkBranch(Blezl, true, false)
    case 0x17 => MarkBranch(Bgtzl, true, false)
    case 0x18 => SetInstruction(Daddi, Alu, NoWidth)
    case 0x19 => SetInstruction(Daddiu, Alu, NoWidth)
    case 0x1A => SetInstruction(Ldl, Load, Doubleword64)
    case 0x1B => SetInstruction(Ldr, Load, Doubleword64)
    case 0x1C => DecodeMmi(funct, sa)
    case 0x1E => SetInstruction(Lq, Load, Quadword128)
    case 0x1F => SetInstruction(Sq, Store, Quadword128)
    case 0x20 => SetInstruction(Lb, Load, Byte)
    case 0x21 => SetInstruction(Lh, Load, Halfword)
    case 0x22 => SetInstruction(Lwl, Load, Word)
    case 0x23 => SetInstruction(Lw, Load, Word)
    case 0x24 => SetInstruction(Lbu, Load, Byte)
    case 0x25 => SetInstruction(Lhu, Load, Halfword)
    case 0x26 => SetInstruction(Lwr, Load, Word)
    case 0x27 => SetInstruction(Lwu, Load, Word)
    case 0x28 => SetInstruction(Sb, Store, Byte)
    case 0x29 => SetInstruction(Sh, Store, Halfword)
    case 0x2A => SetInstruction(Swl, Store, Word)
    case 0x2B => SetInstruction(Sw, Store, Word)
    case 0x2C => SetInstruction(Sdl, Store, Doubleword64)
    case 0x2D => SetInstruction(Sdr, Store, Doubleword64)
    case 0x2E => SetInstruction(Swr, Store, Word)
    case 0x31 => SetInstruction(Lwc1, Load, Word)
    case 0x36 => SetInstruction(Lqc2, Load, Quadword128)
    case 0x37 => SetInstruction(Ld, Load, Doubleword64)
    case 0x39 => SetInstruction(Swc1, Store, Word)
    case 0x3E => SetInstruction(Sqc2, Store, Quadword128)
    case 0x3F => SetInstruction(Sd, Store, Doubleword64)
    case _ => UNCLASSIFIED
  }

  function Primary(word: U32): U8 { word / 0x400_0000 % 0x40 }
  function Rs(word: U32): U8 { word / 0x20_0000 % 0x20 }
  function Rt(word: U32): U8 { word / 0x1_0000 % 0x20 }
  function Rd(word: U32): U8 { word / 0x800 % 0x20 }
  function Sa(word: U32): U8 { word / 0x40 % 0x20 }
  function Funct(word: U32): U8 { word % 0x40 }

  /** decode_r5900: every word decodes; an unrecognised one is Unknown. */
  function Decode(word: U32): (d: Decoded)
    ensures d.raw == word
    ensures Consistent(Classification(d.instruction, d.instructionClass, d.memoryWidth,
                                      d.hasDelaySlot, d.link, d.likely))
  {
    var c := Classify(word, Primary(word), Rs(word), Rt(word), Sa(word), Funct(word));
    Decoded(word, c.instruction, c.instructionClass, c.memoryWidth,
            Primary(word), Rs(word), Rt(word), Rd(word), Sa(word), Funct(word),
            word % 0x1_0000, word % 0x400_0000,
            c.hasDelaySlot, c.link, c.likely)
  }

  /** Control transfers are resolved: a decoded branch, J or JAL always has a
      direct target, and nothing else has one. */
  lemma DirectTargetExists(word: U32, pc: U32)
    ensures var d := Decode(word);
            d.DirectTarget(pc).Some? <==> d.IsBranch() || d.instruction in {J, Jal}
  {
  }

  /** The arithmetic reading of the mask-and-or that forms a J/JAL target: the
      256 MiB segment of the delay slot, then the word index. */
  lemma JumpTargetValue(base: U32, index: U32)
    ensures JumpTarget(base, index) == base / 0x1000_0000 * 0x1000_0000 + index % 0x400_0000 * 4
  {
    hide BitAnd, BitOr, Shl, Shr, LowBits, Pow2, Classify, Decode;
    Pow2Values();
    ShiftMeaning(15, 28);
    ShiftMeaning(base, 28);
    ShiftMeaning(Shr(base, 28), 28);
    BitAndLowMask(index, 26);
    ReplaceLowBits(base, 0xF000_0000, index % 0x400_0000 * 4, 28, 4);
  }

  lemma AlignedWraps(x: int)
    requires x % 4 == 0
    ensures ToU32(x) % 4 == 0
  {
  }

  /** Instruction addresses stay word-aligned: from an aligned PC every direct
      target is aligned. */
  lemma DirectTargetAligned(d: Decoded, pc: U32)
    requires pc % 4 == 0 && d.DirectTarget(pc).Some?
    ensures d.DirectTarget(pc).value % 4 == 0
  {
    hide JumpTarget;
    var base := ToU32(pc + 4);
    AlignedWraps(pc + 4);
    if d.IsBranch() {
      AlignedWraps(base + d.SignedImmediate() * 4);
    } else {
      JumpTargetValue(base, d.target);
    }
  }
}
