/** The fragment of x86-64 the backend emits: instruction set, encoding and
    decoding (Intel SDM Vol. 2A, sections 2.1.5 and 2.2.1 and the
    per-instruction entries), and a machine that fetches, decodes and executes
    bytes. RCX holds the address of the state record throughout, so a memory
    operand [rcx + disp32] is an offset into that record. */
module X64Machine {
  import opened Words
  import opened Options
  import opened GuestState

  datatype Reg = Rax | Rdx
  datatype Xmm = Xmm0 | Xmm1
  datatype Width = W32 | W64
  datatype AluOp = Add | Or | Sbb | And | Xor

  datatype Insn =
    | AluRegReg(op: AluOp, width: Width, dst: Reg, src: Reg)
    | AluImm8(op: AluOp, dst: Reg, imm8: U8)
    | ShlOne(dst: Reg)
    | Cdqe
    | Load(width: Width, dst: Reg, disp: U32)
    | Store(width: Width, src: Reg, disp: U32)
    | MovImm32(dst: Reg, imm32: U32)
    | MovImm64(dst: Reg, imm64: U64)
    | MovdquLoad(xdst: Xmm, disp: U32)
    | MovdToReg(dst: Reg, xsrc: Xmm)
    | Psrldq(xdst: Xmm, count: U8)
    | MovssLoad(xdst: Xmm, disp: U32)
    | AddssMem(xdst: Xmm, disp: U32)
    | MovssStore(xsrc: Xmm, disp: U32)
    | Ret

  // ---------------------------------------------------------------- encoding

  function RegCode(r: Reg): U8 { if r == Rax then 0 else 2 }

  function XmmCode(x: Xmm): U8 { if x == Xmm0 then 0 else 1 }

  /** The opcode of "op r/m, r". */
  function AluOpcode(op: AluOp): U8 {
    match op case Add => 0x01 case Or => 0x09 case Sbb => 0x19 case And => 0x21 case Xor => 0x31
  }

  /** The /digit of "op r/m32, imm8". */
  function AluDigit(op: AluOp): U8 {
    match op case Add => 0 case Or => 1 case Sbb => 3 case And => 4 case Xor => 6
  }

  /** ModR/M with mod = 11: register direct. */
  function ModRegister(reg: U8, rm: U8): U8
    requires reg < 8 && rm < 8
  {
    0xC0 + reg * 8 + rm
  }

  /** ModR/M with mod = 10, rm = 001: [rcx + disp32], followed by the displacement. */
  function ModMemory(reg: U8, disp: U32): seq<U8>
    requires reg < 8
  {
    [0x81 + reg * 8] + LeBytes(disp, 4)
  }

  function RexW(width: Width): seq<U8> { if width == W64 then [0x48] else [] }

  function Encode(i: Insn): seq<U8> {
    match i
    case AluRegReg(op, width, dst, src) =>
      RexW(width) + [AluOpcode(op), ModRegister(RegCode(src), RegCode(dst))]
    case AluImm8(op, dst, imm8) => [0x83, ModRegister(AluDigit(op), RegCode(dst)), imm8]
    case ShlOne(dst) => [0xD1, ModRegister(4, RegCode(dst))]
    case Cdqe => [0x48, 0x98]
    case Load(width, dst, disp) => RexW(width) + [0x8B] + ModMemory(RegCode(dst), disp)
    case Store(width, src, disp) => RexW(width) + [0x89] + ModMemory(RegCode(src), disp)
    case MovImm32(dst, imm32) => [0xB8 + RegCode(dst)] + LeBytes(imm32, 4)
    case MovImm64(dst, imm64) => [0x48, 0xB8 + RegCode(dst)] + LeBytes(imm64, 8)
    case MovdquLoad(xdst, disp) => [0xF3, 0x0F, 0x6F] + ModMemory(XmmCode(xdst), disp)
    case MovdToReg(dst, xsrc) => [0x66, 0x0F, 0x7E, ModRegister(XmmCode(xsrc), RegCode(dst))]
    case Psrldq(xdst, count) => [0x66, 0x0F, 0x73, ModRegister(3, XmmCode(xdst)), count]
    case MovssLoad(xdst, disp) => [0xF3, 0x0F, 0x10] + ModMemory(XmmCode(xdst), disp)
    case AddssMem(xdst, disp) => [0xF3, 0x0F, 0x58] + ModMemory(XmmCode(xdst), disp)
    case MovssStore(xsrc, disp) => [0xF3, 0x0F, 0x11] + ModMemory(XmmCode(xsrc), disp)
    case Ret => [0xC3]
  }

  function Assemble(code: seq<Insn>): seq<U8> {
    if |code| == 0 then [] else Encode(code[0]) + Assemble(code[1..])
  }

  /** The arithmetic register encodings, byte for byte, with RAX = 0 and RDX = 2. */
  lemma AluEncodings()
    ensures Encode(AluRegReg(Xor, W32, Rax, Rax)) == [0x31, 0xC0]
    ensures Encode(AluRegReg(Add, W32, Rax, Rdx)) == [0x01, 0xD0]
    ensures Encode(AluRegReg(Or, W64, Rax, Rdx)) == [0x48, 0x09, 0xD0]
    ensures Encode(AluRegReg(And, W64, Rax, Rdx)) == [0x48, 0x21, 0xD0]
    ensures Encode(AluRegReg(Sbb, W32, Rdx, Rdx)) == [0x19, 0xD2]
    ensures Encode(AluRegReg(Or, W32, Rax, Rdx)) == [0x09, 0xD0]
  {
    hide LeBytes, ModMemory;
  }

  /** The other register encodings. */
  lemma RegisterEncodings(imm8: U8)
    ensures Encode(AluImm8(And, Rax, imm8)) == [0x83, 0xE0, imm8]
    ensures Encode(AluImm8(Xor, Rax, imm8)) == [0x83, 0xF0, imm8]
    ensures Encode(ShlOne(Rax)) == [0xD1, 0xE0]
    ensures Encode(Cdqe) == [0x48, 0x98]
    ensures Encode(Ret) == [0xC3]
  {
    hide LeBytes, ModMemory;
  }

  /** The stores to [RCX + disp32]. */
  lemma StoreEncodings(disp: U32)
    ensures Encode(Store(W64, Rax, disp)) == [0x48, 0x89, 0x81] + LeBytes(disp, 4)
    ensures Encode(Store(W32, Rax, disp)) == [0x89, 0x81] + LeBytes(disp, 4)
  {
    hide LeBytes;
    ConcatAssociates([0x48, 0x89], [0x81], LeBytes(disp, 4));
    ConcatAssociates([0x89], [0x81], LeBytes(disp, 4));
  }

  /** The loads of [RCX + disp32], of 32 and 64 bits. */
  lemma Load32Encoding(r: Reg, disp: U32)
    ensures Encode(Load(W32, r, disp)) == [0x8B] + ([if r == Rax then 0x81 else 0x91] + LeBytes(disp, 4))
  {
    hide LeBytes;
  }

  lemma Load64Encoding(r: Reg, disp: U32)
    ensures Encode(Load(W64, r, disp)) == [0x48, 0x8B] + ([if r == Rax then 0x81 else 0x91] + LeBytes(disp, 4))
  {
    hide LeBytes;
  }

  /** The loads of immediates. */
  lemma ImmediateEncodings(imm32: U32, imm64: U64)
    ensures Encode(MovImm32(Rax, imm32)) == [0xB8] + LeBytes(imm32, 4)
    ensures Encode(MovImm32(Rdx, imm32)) == [0xBA] + LeBytes(imm32, 4)
    ensures Encode(MovImm64(Rax, imm64)) == [0x48, 0xB8] + LeBytes(imm64, 8)
    ensures Encode(MovImm64(Rdx, imm64)) == [0x48, 0xBA] + LeBytes(imm64, 8)
  {
    hide LeBytes;
  }

  /** The SSE register encodings, with XMM0 = 0 and XMM1 = 1. */
  lemma VectorEncodings()
    ensures Encode(MovdToReg(Rax, Xmm0)) == [0x66, 0x0F, 0x7E, 0xC0]
    ensures Encode(MovdToReg(Rdx, Xmm1)) == [0x66, 0x0F, 0x7E, 0xCA]
    ensures Encode(Psrldq(Xmm0, 4)) == [0x66, 0x0F, 0x73, 0xD8, 4]
    ensures Encode(Psrldq(Xmm1, 4)) == [0x66, 0x0F, 0x73, 0xD9, 4]
  {
  }

  /** The SSE loads, add and store of [RCX + disp32]. */
  lemma VectorMemoryEncodings(x: Xmm, disp: U32)
    ensures var operand := [if x == Xmm0 then 0x81 else 0x89] + LeBytes(disp, 4);
            && Encode(MovdquLoad(x, disp)) == [0xF3, 0x0F, 0x6F] + operand
            && Encode(MovssLoad(x, disp)) == [0xF3, 0x0F, 0x10] + operand
            && Encode(AddssMem(x, disp)) == [0xF3, 0x0F, 0x58] + operand
            && Encode(MovssStore(x, disp)) == [0xF3, 0x0F, 0x11] + operand
  {
    hide LeBytes;
  }

  // ---------------------------------------------------------------- decoding

  function DecodeReg(code: int): Option<Reg> {
    if code == 0 then Some(Rax) else if code == 2 then Some(Rdx) else None
  }

  function DecodeXmm(code: int): Option<Xmm> {
    if code == 0 then Some(Xmm0) else if code == 1 then Some(Xmm1) else None
  }

  function DecodeAluOpcode(b: U8): Option<AluOp> {
    match b
    case 0x01 => Some(Add) case 0x09 => Some(Or) case 0x19 => Some(Sbb)
    case 0x21 => Some(And) case 0x31 => Some(Xor) case _ => None
  }

  function DecodeAluDigit(b: int): Option<AluOp> {
    match b
    case 0 => Some(Add) case 1 => Some(Or) case 3 => Some(Sbb) case 4 => Some(And) case 6 => Some(Xor)
    case _ => None
  }

  datatype Fetched = Fetched(insn: Insn, length: nat)

  /** mod, reg and rm of a ModR/M byte. */
  function Mod(b: U8): U8 { b / 64 }
  function RegField(b: U8): U8 { b / 8 % 8 }
  function RmField(b: U8): U8 { b % 8 }

  /** A ModR/M byte naming [rcx + disp32], and its displacement. */
  function MemoryDisp(s: seq<U8>): Option<U32> {
    if |s| >= 5 && Mod(s[0]) == 2 && RmField(s[0]) == 1 then Some(LeU32(s[1..5])) else None
  }

  /** The instructions with no mandatory prefix; width from an optional REX.W. */
  function DecodeMain(s: seq<U8>, width: Width): (f: Option<Fetched>)
    ensures f.Some? ==> 1 <= f.value.length <= |s|
  {
    if |s| == 0 then None
    else if s[0] == 0xC3 && width == W32 then Some(Fetched(Ret, 1))
    else if s[0] == 0x98 && width == W64 then Some(Fetched(Cdqe, 1))
    else if 0xB8 <= s[0] < 0xC0 then
      (match DecodeReg(s[0] - 0xB8)
       case None => None
       case Some(r) =>
         if width == W32 && |s| >= 5 then Some(Fetched(MovImm32(r, LeU32(s[1..5])), 5))
         else if width == W64 && |s| >= 9 then Some(Fetched(MovImm64(r, LeU64(s[1..9])), 9))
         else None)
    else if |s| < 2 then None
    else if s[0] == 0x8B || s[0] == 0x89 then
      (match (DecodeReg(RegField(s[1])), MemoryDisp(s[1..]))
       case (Some(r), Some(d)) => Some(Fetched(if s[0] == 0x8B then Load(width, r, d) else Store(width, r, d), 6))
       case _ => None)
    else if Mod(s[1]) != 3 then None
    else
      match DecodeReg(RmField(s[1]))
      case None => None
      case Some(dst) =>
        if s[0] == 0x83 then
          if width == W32 && |s| >= 3 && DecodeAluDigit(RegField(s[1])).Some? then
            Some(Fetched(AluImm8(DecodeAluDigit(RegField(s[1])).value, dst, s[2]), 3))
          else None
        else if s[0] == 0xD1 then
          if width == W32 && RegField(s[1]) == 4 then Some(Fetched(ShlOne(dst), 2)) else None
        else
          match (DecodeAluOpcode(s[0]), DecodeReg(RegField(s[1])))
          case (Some(op), Some(src)) => Some(Fetched(AluRegReg(op, width, dst, src), 2))
          case _ => None
  }

  /** The two-byte opcodes after F3 0F. */
  function DecodeScalar(s: seq<U8>): (f: Option<Fetched>)
    ensures f.Some? ==> 1 <= f.value.length <= |s|
  {
    if |s| < 2 then None
    else match (DecodeXmm(RegField(s[1])), MemoryDisp(s[1..]))
      case (Some(x), Some(d)) =>
        (match s[0]
         case 0x6F => Some(Fetched(MovdquLoad(x, d), 6))
         case 0x10 => Some(Fetched(MovssLoad(x, d), 6))
         case 0x58 => Some(Fetched(AddssMem(x, d), 6))
         case 0x11 => Some(Fetched(MovssStore(x, d), 6))
         case _ => None)
      case _ => None
  }

  /** The two-byte opcodes after 66 0F. */
  function DecodePacked(s: seq<U8>): (f: Option<Fetched>)
    ensures f.Some? ==> 1 <= f.value.length <= |s|
  {
    if |s| < 2 || Mod(s[1]) != 3 then None
    else if s[0] == 0x7E then
      (match (DecodeXmm(RegField(s[1])), DecodeReg(RmField(s[1])))
       case (Some(x), Some(r)) => Some(Fetched(MovdToReg(r, x), 2))
       case _ => None)
    else if s[0] == 0x73 && RegField(s[1]) == 3 && |s| >= 3 && DecodeXmm(RmField(s[1])).Some? then
      Some(Fetched(Psrldq(DecodeXmm(RmField(s[1])).value, s[2]), 3))
    else None
  }

  function Longer(f: Option<Fetched>, prefix: nat): Option<Fetched> {
    if f.None? then None else Some(Fetched(f.value.insn, f.value.length + prefix))
  }

  /** The instruction at the start of a byte string, with its length. */
  function DecodeInsn(s: seq<U8>): (f: Option<Fetched>)
    ensures f.Some? ==> 1 <= f.value.length <= |s|
  {
    if |s| == 0 then None
    else if s[0] == 0x48 then Longer(DecodeMain(s[1..], W64), 1)
    else if |s| >= 2 && s[0] == 0xF3 && s[1] == 0x0F then Longer(DecodeScalar(s[2..]), 2)
    else if |s| >= 2 && s[0] == 0x66 && s[1] == 0x0F then Longer(DecodePacked(s[2..]), 2)
    else DecodeMain(s, W32)
  }

  lemma MemoryOperandDecodes(reg: U8, disp: U32, rest: seq<U8>)
    requires reg < 8
    ensures var s := ModMemory(reg, disp) + rest;
            |s| >= 5 && RegField(s[0]) == reg && MemoryDisp(s) == Some(disp)
  {
    var s := ModMemory(reg, disp) + rest;
    assert s[1..5] == LeBytes(disp, 4);
    LeRoundTrip32(disp);
  }

  lemma LoadStoreDecode(i: Insn, rest: seq<U8>)
    requires i.Load? || i.Store?
    ensures DecodeInsn(Encode(i) + rest) == Some(Fetched(i, |Encode(i)|))
  {
    hide DecodeMain, DecodeInsn, MemoryDisp;
    var reg, opcode := RegCode(if i.Load? then i.dst else i.src), if i.Load? then 0x8B else 0x89;
    MemoryOperandDecodes(reg, i.disp, rest);
    var operand := ModMemory(reg, i.disp) + rest;
    var main := [opcode] + operand;
    assert main[1..] == operand && main[1] == operand[0];
    LoadStoreMainDecode(i, main);
    RexDecode(i.width, main);
    assert Encode(i) + rest == RexW(i.width) + main;
  }

  lemma LoadStoreMainDecode(i: Insn, main: seq<U8>)
    requires i.Load? || i.Store?
    requires |main| >= 2 && main[0] == (if i.Load? then 0x8B else 0x89)
    requires RegField(main[1]) == RegCode(if i.Load? then i.dst else i.src) && MemoryDisp(main[1..]) == Some(i.disp)
    ensures DecodeMain(main, i.width) == Some(Fetched(i, 6))
  {
  }

  function ScalarOpcode(i: Insn): U8
    requires i.MovdquLoad? || i.MovssLoad? || i.AddssMem? || i.MovssStore?
  {
    match i
    case MovdquLoad(_, _) => 0x6F
    case MovssLoad(_, _) => 0x10
    case AddssMem(_, _) => 0x58
    case MovssStore(_, _) => 0x11
  }

  lemma ScalarTailDecode(i: Insn, tail: seq<U8>)
    requires i.MovdquLoad? || i.MovssLoad? || i.AddssMem? || i.MovssStore?
    requires |tail| >= 2 && tail[0] == ScalarOpcode(i)
    requires RegField(tail[1]) == XmmCode(if i.MovssStore? then i.xsrc else i.xdst)
    requires MemoryDisp(tail[1..]) == Some(i.disp)
    ensures DecodeScalar(tail) == Some(Fetched(i, 6))
  {
    hide MemoryDisp, RegField;
    assert DecodeXmm(RegField(tail[1])) == Some(if i.MovssStore? then i.xsrc else i.xdst);
  }

  lemma ScalarEncoding(i: Insn)
    requires i.MovdquLoad? || i.MovssLoad? || i.AddssMem? || i.MovssStore?
    ensures Encode(i) == [0xF3, 0x0F] + ([ScalarOpcode(i)] +
                         ModMemory(XmmCode(if i.MovssStore? then i.xsrc else i.xdst), i.disp))
    ensures |Encode(i)| == 8
  {
    hide LeBytes;
  }

  lemma ConcatAssociates(a: seq<U8>, b: seq<U8>, c: seq<U8>)
    ensures (a + b) + c == a + (b + c)
  {
  }

  lemma ScalarDecode(i: Insn, rest: seq<U8>)
    requires i.MovdquLoad? || i.MovssLoad? || i.AddssMem? || i.MovssStore?
    ensures DecodeInsn(Encode(i) + rest) == Some(Fetched(i, |Encode(i)|))
  {
    hide DecodeInsn, DecodeScalar, DecodePacked, ScalarOpcode, MemoryDisp, RegField, ModMemory, Encode;
    var x := if i.MovssStore? then i.xsrc else i.xdst;
    var memory := ModMemory(XmmCode(x), i.disp);
    var operand := memory + rest;
    var tail := [ScalarOpcode(i)] + operand;
    MemoryOperandDecodes(XmmCode(x), i.disp, rest);
    assert tail[1..] == operand && tail[1] == operand[0];
    ScalarTailDecode(i, tail);
    PrefixedDecode(0xF3, tail);
    ScalarEncoding(i);
    ConcatAssociates([0xF3, 0x0F], [ScalarOpcode(i)] + memory, rest);
    ConcatAssociates([ScalarOpcode(i)], memory, rest);
  }

  lemma PrefixedDecode(prefix: U8, tail: seq<U8>)
    requires prefix == 0xF3 || prefix == 0x66
    ensures DecodeInsn([prefix, 0x0F] + tail) ==
            Longer(if prefix == 0xF3 then DecodeScalar(tail) else DecodePacked(tail), 2)
  {
    assert ([prefix, 0x0F] + tail)[2..] == tail;
  }

  lemma RexDecode(width: Width, tail: seq<U8>)
    requires |tail| > 0 && tail[0] !in {0x48, 0xF3, 0x66}
    ensures DecodeInsn(RexW(width) + tail) == Longer(DecodeMain(tail, width), |RexW(width)|)
  {
    assert if width == W64 then (RexW(width) + tail)[1..] == tail else RexW(width) + tail == tail;
    var f := DecodeMain(tail, width);
    assert f == Longer(f, 0);
  }

  lemma Immediate32Decode(r: Reg, imm32: U32, rest: seq<U8>)
    ensures var main := [0xB8 + RegCode(r)] + (LeBytes(imm32, 4) + rest);
            DecodeMain(main, W32) == Some(Fetched(MovImm32(r, imm32), 5))
  {
    hide LeBytes, LeU32, MemoryDisp;
    var main := [0xB8 + RegCode(r)] + (LeBytes(imm32, 4) + rest);
    assert main[1..5] == LeBytes(imm32, 4);
    LeRoundTrip32(imm32);
  }

  lemma Immediate64Decode(r: Reg, imm64: U64, rest: seq<U8>)
    ensures var main := [0xB8 + RegCode(r)] + (LeBytes(imm64, 8) + rest);
            DecodeMain(main, W64) == Some(Fetched(MovImm64(r, imm64), 9))
  {
    hide LeBytes, LeU64, MemoryDisp;
    var main := [0xB8 + RegCode(r)] + (LeBytes(imm64, 8) + rest);
    assert main[1..9] == LeBytes(imm64, 8);
    LeRoundTrip64(imm64);
  }

  lemma ImmediateDecode(i: Insn, rest: seq<U8>)
    requires i.MovImm32? || i.MovImm64?
    ensures DecodeInsn(Encode(i) + rest) == Some(Fetched(i, |Encode(i)|))
  {
    hide DecodeInsn, DecodeMain, LeBytes;
    var bytes := if i.MovImm32? then LeBytes(i.imm32, 4) else LeBytes(i.imm64, 8);
    var opcode := [0xB8 + RegCode(i.dst)];
    var width := if i.MovImm32? then W32 else W64;
    if i.MovImm32? {
      Immediate32Decode(i.dst, i.imm32, rest);
    } else {
      Immediate64Decode(i.dst, i.imm64, rest);
    }
    RexDecode(width, opcode + (bytes + rest));
    assert Encode(i) == RexW(width) + (opcode + bytes);
    ConcatAssociates(RexW(width), opcode + bytes, rest);
    ConcatAssociates(opcode, bytes, rest);
  }

  /** Each encoding decodes back to its instruction and exact length whatever
      follows it. */
  lemma DecodeInvertsEncode(i: Insn, rest: seq<U8>)
    ensures DecodeInsn(Encode(i) + rest) == Some(Fetched(i, |Encode(i)|))
  {
    if i.Load? || i.Store? {
      LoadStoreDecode(i, rest);
    } else if i.MovdquLoad? || i.MovssLoad? || i.AddssMem? || i.MovssStore? {
      ScalarDecode(i, rest);
    } else if i.MovImm32? || i.MovImm64? {
      ImmediateDecode(i, rest);
    } else {
      RegisterDecode(i, rest);
    }
  }

  lemma ModRegisterFields(reg: U8, rm: U8)
    requires reg < 8 && rm < 8
    ensures var b := ModRegister(reg, rm); Mod(b) == 3 && RegField(b) == reg && RmField(b) == rm
  {
  }

  lemma RegisterDecode(i: Insn, rest: seq<U8>)
    requires i.AluRegReg? || i.AluImm8? || i.ShlOne? || i.Cdqe? || i.MovdToReg? || i.Psrldq? || i.Ret?
    ensures DecodeInsn(Encode(i) + rest) == Some(Fetched(i, |Encode(i)|))
  {
    match i {
      case AluRegReg(op, width, dst, src) => AluDecode(op, width, dst, src, rest);
      case AluImm8(op, dst, imm8) => ModRegisterFields(AluDigit(op), RegCode(dst));
      case ShlOne(dst) => ModRegisterFields(4, RegCode(dst));
      case Cdqe => assert (Encode(i) + rest)[1..] == [0x98] + rest;
      case MovdToReg(dst, xsrc) => PackedDecode(i, XmmCode(xsrc), RegCode(dst), rest);
      case Psrldq(xdst, count) => PackedDecode(i, 3, XmmCode(xdst), rest);
      case Ret =>
    }
  }

  lemma AluDecode(op: AluOp, width: Width, dst: Reg, src: Reg, rest: seq<U8>)
    ensures var i := AluRegReg(op, width, dst, src);
            DecodeInsn(Encode(i) + rest) == Some(Fetched(i, |Encode(i)|))
  {
    hide DecodeInsn, DecodeMain, RexW, ModRegister, Mod, RegField, RmField;
    var code := [AluOpcode(op), ModRegister(RegCode(src), RegCode(dst))];
    ModRegisterFields(RegCode(src), RegCode(dst));
    AluMainDecode(op, width, dst, src, code + rest);
    RexDecode(width, code + rest);
    ConcatAssociates(RexW(width), code, rest);
  }

  lemma AluMainDecode(op: AluOp, width: Width, dst: Reg, src: Reg, main: seq<U8>)
    requires |main| >= 2 && main[0] == AluOpcode(op) && Mod(main[1]) == 3
    requires RegField(main[1]) == RegCode(src) && RmField(main[1]) == RegCode(dst)
    ensures DecodeMain(main, width) == Some(Fetched(AluRegReg(op, width, dst, src), 2))
  {
    assert DecodeAluOpcode(main[0]) == Some(op);
    assert DecodeReg(RegField(main[1])) == Some(src) && DecodeReg(RmField(main[1])) == Some(dst);
  }

  lemma PackedDecode(i: Insn, reg: U8, rm: U8, rest: seq<U8>)
    requires (i.MovdToReg? && reg == XmmCode(i.xsrc) && rm == RegCode(i.dst)) ||
             (i.Psrldq? && reg == 3 && rm == XmmCode(i.xdst))
    ensures DecodeInsn(Encode(i) + rest) == Some(Fetched(i, |Encode(i)|))
  {
    hide DecodeInsn, DecodePacked;
    var tail := (if i.MovdToReg? then [0x7E, ModRegister(reg, rm)] else [0x73, ModRegister(reg, rm), i.count]) + rest;
    ModRegisterFields(reg, rm);
    PackedTailDecode(i, tail);
    PrefixedDecode(0x66, tail);
    assert Encode(i) + rest == [0x66, 0x0F] + tail;
  }

  lemma PackedTailDecode(i: Insn, tail: seq<U8>)
    requires i.MovdToReg? || i.Psrldq?
    requires |tail| >= 2 && Mod(tail[1]) == 3
    requires i.MovdToReg? ==>
               tail[0] == 0x7E && RegField(tail[1]) == XmmCode(i.xsrc) && RmField(tail[1]) == RegCode(i.dst)
    requires i.Psrldq? ==> |tail| >= 3 && tail[0] == 0x73 && RegField(tail[1]) == 3 &&
                           RmField(tail[1]) == XmmCode(i.xdst) && tail[2] == i.count
    ensures DecodePacked(tail) == Some(Fetched(i, if i.MovdToReg? then 2 else 3))
  {
  }

  /** A byte string read as a whole instruction list. */
  function Disassemble(s: seq<U8>): Option<seq<Insn>>
    decreases |s|
  {
    if |s| == 0 then Some([])
    else
      match DecodeInsn(s)
      case None => None
      case Some(f) =>
        match Disassemble(s[f.length..])
        case None => None
        case Some(tail) => Some([f.insn] + tail)
  }

  /** Assembled code parses back to exactly the instruction list it came from. */
  lemma {:induction false} DisassembleInvertsAssemble(code: seq<Insn>)
    ensures Disassemble(Assemble(code)) == Some(code)
  {
    if |code| > 0 {
      DisassembleInvertsAssemble(code[1..]);
      DecodeInvertsEncode(code[0], Assemble(code[1..]));
      assert Assemble(code)[|Encode(code[0])|..] == Assemble(code[1..]);
      assert code == [code[0]] + code[1..];
    }
  }

  lemma {:induction false} AssembleConcat(a: seq<Insn>, b: seq<Insn>)
    ensures Assemble(a + b) == Assemble(a) + Assemble(b)
  {
    hide Encode;
    if |a| == 0 {
      assert a + b == b;
    } else {
      AssembleConcat(a[1..], b);
      assert (a + b)[1..] == a[1..] + b;
    }
  }

  // ---------------------------------------------------------------- the machine

  /** cf is the carry flag; record is the memory RCX points at. */
  datatype MachineValue = Machine(rax: U64, rdx: U64, xmm0: seq<U8>, xmm1: seq<U8>, cf: bool, record: seq<U8>)

  type Machine = m: MachineValue | |m.xmm0| == 16 && |m.xmm1| == 16
    witness Machine(0, 0, seq(16, _ => 0), seq(16, _ => 0), false, [])

  function GetReg(m: Machine, r: Reg): U64 { if r == Rax then m.rax else m.rdx }

  function SetReg(m: Machine, r: Reg, v: U64): Machine {
    if r == Rax then m.(rax := v) else m.(rdx := v)
  }

  function GetXmm(m: Machine, x: Xmm): (v: seq<U8>)
    ensures |v| == 16
  {
    if x == Xmm0 then m.xmm0 else m.xmm1
  }

  function SetXmm(m: Machine, x: Xmm, v: seq<U8>): Machine
    requires |v| == 16
  {
    if x == Xmm0 then m.(xmm0 := v) else m.(xmm1 := v)
  }

  function Bound(width: Width): int {
    if width == W32 then 0x1_0000_0000 else 0x1_0000_0000_0000_0000
  }

  /** A 32-bit operation reads the low half; its result clears the upper half. */
  function Operand(m: Machine, r: Reg, width: Width): U64 {
    if width == W32 then ToU32(GetReg(m, r)) else GetReg(m, r)
  }

  datatype AluResult = AluResult(value: U64, carry: bool)

  function Alu(op: AluOp, width: Width, a: U64, b: U64, cf: bool): AluResult {
    match op
    case Add => AluResult((a + b) % Bound(width), a + b >= Bound(width))
    case Sbb =>
      var c := if cf then 1 else 0;
      AluResult((a - b - c) % Bound(width), a < b + c)
    case Or => AluResult(Or64(a, b), false)
    case And => AluResult(And64(a, b), false)
    case Xor => AluResult(Xor64(a, b), false)
  }

  function SignExtend8(imm8: U8): U32 { if imm8 < 0x80 then imm8 else 0xFFFF_FF00 + imm8 }

  predicate InRecord(m: Machine, disp: U32, n: nat) { disp + n <= |m.record| }

  function Patch(record: seq<U8>, at: nat, bytes: seq<U8>): (r: seq<U8>)
    requires at + |bytes| <= |record|
    ensures |r| == |record|
  {
    record[..at] + bytes + record[at + |bytes|..]
  }

  function ZeroBytes(n: nat): seq<U8> { seq(n, _ => 0) }

  /** One instruction; None when it accesses memory outside the record. */
  function Exec(fadd: F32Add, i: Insn, m: Machine): Option<Machine>
    requires i != Ret
  {
    match i
    case AluRegReg(op, width, dst, src) =>
      var r := Alu(op, width, Operand(m, dst, width), Operand(m, src, width), m.cf);
      Some(SetReg(m, dst, r.value).(cf := r.carry))
    case AluImm8(op, dst, imm8) =>
      var r := Alu(op, W32, Operand(m, dst, W32), SignExtend8(imm8), m.cf);
      Some(SetReg(m, dst, r.value).(cf := r.carry))
    case ShlOne(dst) =>
      var a := Operand(m, dst, W32);
      Some(SetReg(m, dst, ToU32(a * 2)).(cf := a >= 0x8000_0000))
    case Cdqe =>
      var eax := ToU32(m.rax);
      Some(m.(rax := if eax < 0x8000_0000 then eax else 0xFFFF_FFFF_0000_0000 + eax))
    case Load(width, dst, disp) =>
      if width == W32 then
        if InRecord(m, disp, 4) then Some(SetReg(m, dst, LeU32(m.record[disp..disp + 4]))) else None
      else
        if InRecord(m, disp, 8) then Some(SetReg(m, dst, LeU64(m.record[disp..disp + 8]))) else None
    case Store(width, src, disp) =>
      var n := if width == W32 then 4 else 8;
      if InRecord(m, disp, n) then Some(m.(record := Patch(m.record, disp, LeBytes(GetReg(m, src), n)))) else None
    case MovImm32(dst, imm32) => Some(SetReg(m, dst, imm32))
    case MovImm64(dst, imm64) => Some(SetReg(m, dst, imm64))
    case MovdquLoad(x, disp) =>
      if InRecord(m, disp, 16) then Some(SetXmm(m, x, m.record[disp..disp + 16])) else None
    case MovdToReg(dst, x) => Some(SetReg(m, dst, LeU32(GetXmm(m, x)[..4])))
    case Psrldq(x, count) =>
      var n := if count > 15 then 16 else count;
      Some(SetXmm(m, x, GetXmm(m, x)[n..] + ZeroBytes(n)))
    case MovssLoad(x, disp) =>
      if InRecord(m, disp, 4) then Some(SetXmm(m, x, m.record[disp..disp + 4] + ZeroBytes(12))) else None
    case AddssMem(x, disp) =>
      if InRecord(m, disp, 4) then
        var sum := fadd(LeU32(GetXmm(m, x)[..4]), LeU32(m.record[disp..disp + 4]));
        Some(SetXmm(m, x, LeBytes(sum, 4) + GetXmm(m, x)[4..]))
      else None
    case MovssStore(x, disp) =>
      if InRecord(m, disp, 4) then Some(m.(record := Patch(m.record, disp, GetXmm(m, x)[..4]))) else None
  }

  /** Straight-line execution of an instruction list. */
  function ExecAll(fadd: F32Add, code: seq<Insn>, m: Machine): Option<Machine>
    requires Ret !in code
  {
    if |code| == 0 then Some(m)
    else match Exec(fadd, code[0], m)
      case None => None
      case Some(next) => ExecAll(fadd, code[1..], next)
  }

  /** Fetch-decode-execute from the start of a byte string until RET. None: an
      undecodable byte, an access outside the record, or running off the end. */
  function Run(fadd: F32Add, s: seq<U8>, m: Machine): Option<Machine>
    decreases |s|
  {
    match DecodeInsn(s)
    case None => None
    case Some(f) =>
      if f.insn == Ret then Some(m)
      else match Exec(fadd, f.insn, m)
        case None => None
        case Some(next) => Run(fadd, s[f.length..], next)
  }

  /** Running assembled bytes is executing the instructions they encode. */
  lemma {:induction false} RunAssembled(fadd: F32Add, code: seq<Insn>, m: Machine)
    requires Ret !in code
    ensures Run(fadd, Assemble(code + [Ret]), m) == ExecAll(fadd, code, m)
    decreases |code|
  {
    var all := code + [Ret];
    DecodeInvertsEncode(all[0], Assemble(all[1..]));
    if |code| > 0 {
      assert Assemble(all)[|Encode(code[0])|..] == Assemble(all[1..]);
      assert all[1..] == code[1..] + [Ret];
      match Exec(fadd, code[0], m) {
        case None =>
        case Some(next) => RunAssembled(fadd, code[1..], next);
      }
    }
  }

  lemma {:induction false} ExecAllConcat(fadd: F32Add, a: seq<Insn>, b: seq<Insn>, m: Machine)
    requires Ret !in a && Ret !in b
    ensures ExecAll(fadd, a + b, m) ==
            match ExecAll(fadd, a, m) case None => None case Some(next) => ExecAll(fadd, b, next)
    decreases |a|
  {
    if |a| == 0 {
      assert a + b == b;
    } else {
      assert (a + b)[1..] == a[1..] + b;
      match Exec(fadd, a[0], m) {
        case None =>
        case Some(next) => ExecAllConcat(fadd, a[1..], b, next);
      }
    }
  }
}
