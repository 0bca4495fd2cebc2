/** The basic-block analyzer (src/analysis/r5900_control_flow.cpp). */
module ControlFlow {
  import opened Words
  import opened Options
  import opened MemoryMap
  import opened MemoryMapObject
  import D = Decoder

  datatype ControlFlowError =
    | InvalidInstructionLimit
    | UnalignedStart
    | UnmappedInstruction
    | NonExecutableInstruction
    | MissingDelaySlot
    | NonExecutableDelaySlot

  datatype BlockEndKind =
    | InstructionLimit
    | ConditionalBranch
    | DirectJump
    | DirectCall
    | IndirectJump
    | IndirectCall
    | Trap
    | UnsupportedInstruction

  datatype EdgeKind =
    | BranchTaken
    | BranchNotTaken
    | DirectJumpEdge
    | DirectCallEdge
    | CallContinuation
    | IndirectJumpEdge
    | IndirectCallEdge
    | Fallthrough

  datatype Site = Site(pc: U32, decoded: D.Decoded)

  datatype Edge = Edge(kind: EdgeKind, target: Option<U32>)

  /** How a block ends. */
  datatype Ending = Ending(
    delaySlot: Option<Site>,
    endKind: BlockEndKind,
    delaySlotExecutesOnFallthrough: bool,
    edges: seq<Edge>)

  datatype BasicBlock = BasicBlock(startPc: U32, instructions: seq<Site>, ending: Ending)

  datatype ControlFlowOptions = ControlFlowOptions(maxInstructions: U64, requireExecutable: bool)

  datatype BlockResult = BlockOk(block: BasicBlock) | BlockFailed(error: ControlFlowError)

  // ---------------------------------------------------------------- fetching

  datatype RangeStatus = Unmapped | NonExecutable | Executable

  predicate HasExecuteFlag(flags: U32) { And32(flags, 1) != 0 }

  /** range_status over the region metadata. */
  function StatusOf(regions: seq<Region>, address: U32, length: nat): RangeStatus {
    if length > GUEST_ADDRESS_SPACE_SIZE || address + length > GUEST_ADDRESS_SPACE_SIZE then Unmapped
    else StatusFrom(regions, address, address + length, 0)
  }

  function StatusFrom(regions: seq<Region>, from: int, to: int, i: nat): RangeStatus
    requires i <= |regions|
    decreases |regions| - i
  {
    if i == |regions| then Unmapped
    else if Holds(regions[i], from, to) then
      if HasExecuteFlag(regions[i].flags) then Executable else NonExecutable
    else StatusFrom(regions, from, to, i + 1)
  }

  function Regions(m: MapValue): (r: seq<Region>)
    ensures |r| == |m| && forall i :: 0 <= i < |m| ==> r[i] == m[i].metadata
  {
    seq(|m|, i requires 0 <= i < |m| => m[i].metadata)
  }

  function Status(m: MapValue, address: U32, length: nat): RangeStatus {
    StatusOf(Regions(m), address, length)
  }

  /** The range status is Unmapped exactly when translation fails; otherwise it is
      the flag of the region the access translates into. */
  lemma StatusAgreesWithTranslate(m: MapValue, address: U32, length: nat)
    ensures Status(m, address, length) == Unmapped <==> Translate(m, address, length).None?
    ensures var s := Translate(m, address, length);
            s.Some? ==> (Status(m, address, length) == Executable <==> HasExecuteFlag(m[s.value.region].metadata.flags))
  {
    if AccessRangeFits(address, length) {
      StatusFromAgrees(m, address, address + length, 0);
    }
  }

  lemma {:induction false} StatusFromAgrees(m: MapValue, from: int, to: int, i: nat)
    requires i <= |m|
    ensures StatusFrom(Regions(m), from, to, i) ==
            var r := FirstHolding(m, from, to, i);
            if r.None? then Unmapped
            else if HasExecuteFlag(m[r.value].metadata.flags) then Executable else NonExecutable
    decreases |m| - i
  {
    if i < |m| {
      StatusFromAgrees(m, from, to, i + 1);
    }
  }

  function FetchSite(m: MapValue, pc: U32, requireExecutable: bool): Option<Site>
    requires WellFormed(m)
  {
    var word := ReadU32At(m, pc);
    if word.None? then None
    else if requireExecutable && Status(m, pc, 4) != Executable then None
    else Some(Site(pc, D.Decode(word.value)))
  }

  function FetchFailure(m: MapValue, pc: U32, requireExecutable: bool): ControlFlowError {
    if requireExecutable && Status(m, pc, 4) == NonExecutable then NonExecutableInstruction
    else UnmappedInstruction
  }

  function DelaySlotFailure(m: MapValue, pc: U32, requireExecutable: bool): ControlFlowError {
    if requireExecutable && Status(m, pc, 4) == NonExecutable then NonExecutableDelaySlot
    else MissingDelaySlot
  }

  /** The error of a failed fetch is exact: "non-executable" says the word is
      mapped, "unmapped" that it is not. */
  lemma FetchFailureIsExact(m: MapValue, pc: U32, requireExecutable: bool)
    requires WellFormed(m) && FetchSite(m, pc, requireExecutable).None?
    ensures FetchFailure(m, pc, requireExecutable) == UnmappedInstruction <==> ReadU32At(m, pc).None?
    ensures DelaySlotFailure(m, pc, requireExecutable) == MissingDelaySlot <==> ReadU32At(m, pc).None?
  {
    StatusAgreesWithTranslate(m, pc, 4);
  }

  // ---------------------------------------------------------------- block endings

  datatype EndingResult = EndingOk(ending: Ending) | EndingFailed(error: ControlFlowError)

  function JumpEnding(slot: Site, kind: BlockEndKind, terminator: Site, edges: seq<Edge>): EndingResult {
    EndingOk(Ending(Some(slot), kind, !terminator.decoded.likely, edges))
  }

  /** finish_control_transfer: the delay slot and the outgoing edges. */
  function FinishControlTransfer(m: MapValue, terminator: Site, requireExecutable: bool): EndingResult
    requires WellFormed(m)
  {
    var delayPc := ToU32(terminator.pc + 4);
    var continuation := Some(ToU32(terminator.pc + 8));
    var slot := FetchSite(m, delayPc, requireExecutable);
    if slot.None? then EndingFailed(DelaySlotFailure(m, delayPc, requireExecutable))
    else
      var target := terminator.decoded.DirectTarget(terminator.pc);
      if terminator.decoded.IsBranch() then
        if target.None? then EndingFailed(UnmappedInstruction)
        else JumpEnding(slot.value, ConditionalBranch, terminator,
                        [Edge(BranchTaken, target), Edge(BranchNotTaken, continuation)])
      else
        match terminator.decoded.instruction
        case J =>
          if target.None? then EndingFailed(UnmappedInstruction)
          else JumpEnding(slot.value, DirectJump, terminator, [Edge(DirectJumpEdge, target)])
        case Jal =>
          if target.None? then EndingFailed(UnmappedInstruction)
          else JumpEnding(slot.value, DirectCall, terminator,
                          [Edge(DirectCallEdge, target), Edge(CallContinuation, continuation)])
        case Jr => JumpEnding(slot.value, IndirectJump, terminator, [Edge(IndirectJumpEdge, None)])
        case Jalr =>
          JumpEnding(slot.value, IndirectCall, terminator,
                     [Edge(IndirectCallEdge, None), Edge(CallContinuation, continuation)])
        case _ => EndingOk(Ending(None, UnsupportedInstruction, !terminator.decoded.likely, []))
  }

  /** The arms for a branch without a target or a jump of no known kind are
      unreachable from a decoded word: the only failures are those of the delay
      slot, and a control transfer never ends as UnsupportedInstruction. */
  lemma UnexpectedArmsUnreachable(m: MapValue, word: U32, pc: U32, requireExecutable: bool)
    requires WellFormed(m)
    ensures var d := D.Decode(word);
            var r := FinishControlTransfer(m, Site(pc, d), requireExecutable);
            d.IsBranch() || d.IsJump() ==>
              if r.EndingFailed? then
                r.error == DelaySlotFailure(m, ToU32(pc + 4), requireExecutable) &&
                FetchSite(m, ToU32(pc + 4), requireExecutable).None?
              else
                r.ending.delaySlot == FetchSite(m, ToU32(pc + 4), requireExecutable) && r.ending.delaySlot.Some? &&
                r.ending.endKind in {ConditionalBranch, DirectJump, DirectCall, IndirectJump, IndirectCall}
  {
    hide D.Classify, FetchSite, D.Decoded.DirectTarget, ToU32, WellFormed;
    D.DirectTargetExists(word, pc);
  }

  // ---------------------------------------------------------------- the scan

  datatype ScanResult = Scanned(instructions: seq<Site>, ending: Ending) | ScanFailed(error: ControlFlowError)

  function LimitEnding(pc: U32): Ending {
    Ending(None, InstructionLimit, true, [Edge(Fallthrough, Some(pc))])
  }

  function PlainEnding(kind: BlockEndKind): Ending {
    Ending(None, kind, true, [])
  }

  function Prepend(sites: seq<Site>, r: ScanResult): ScanResult {
    if r.ScanFailed? then r else Scanned(sites + r.instructions, r.ending)
  }

  /** The instructions from pc on, at most limit of them. */
  function Scan(m: MapValue, requireExecutable: bool, pc: U32, limit: nat): ScanResult
    requires WellFormed(m)
    decreases limit
  {
    if limit == 0 then Scanned([], LimitEnding(pc))
    else
      var site := FetchSite(m, pc, requireExecutable);
      if site.None? then ScanFailed(FetchFailure(m, pc, requireExecutable))
      else if site.value.decoded.instruction == D.Unknown then
        Scanned([site.value], PlainEnding(UnsupportedInstruction))
      else if site.value.decoded.instructionClass == D.System then Scanned([site.value], PlainEnding(Trap))
      else if site.value.decoded.IsBranch() || site.value.decoded.IsJump() then
        var e := FinishControlTransfer(m, site.value, requireExecutable);
        if e.EndingFailed? then ScanFailed(e.error) else Scanned([site.value], e.ending)
      else Prepend([site.value], Scan(m, requireExecutable, ToU32(pc + 4), limit - 1))
  }

  /** analyze_r5900_basic_block. */
  function AnalyzeBlock(m: MapValue, startPc: U32, options: ControlFlowOptions): BlockResult
    requires WellFormed(m)
  {
    if options.maxInstructions == 0 then BlockFailed(InvalidInstructionLimit)
    else if startPc % 4 != 0 then BlockFailed(UnalignedStart)
    else
      var r := Scan(m, options.requireExecutable, startPc, options.maxInstructions);
      if r.ScanFailed? then BlockFailed(r.error) else BlockOk(BasicBlock(startPc, r.instructions, r.ending))
  }

  // ---------------------------------------------------------------- properties of blocks

  /** The PC of the k-th instruction from pc on. */
  function PcAt(pc: U32, k: nat): U32 { ToU32(pc + 4 * k) }

  lemma PcStep(pc: U32, k: nat)
    ensures PcAt(pc, 0) == pc
    ensures PcAt(ToU32(pc + 4), k) == PcAt(pc, k + 1)
  {
    var q, r := (pc + 4) / 0x1_0000_0000, ToU32(pc + 4);
    var q2, r2 := (r + 4 * k) / 0x1_0000_0000, PcAt(r, k);
    assert pc + 4 * (k + 1) == (q + q2) * 0x1_0000_0000 + r2;
    RemainderUnique(pc + 4 * (k + 1), 0x1_0000_0000, q + q2, r2);
  }

  /** An instruction that does not end a block. */
  predicate Straight(d: D.Decoded) {
    d.instruction != D.Unknown && d.instructionClass != D.System && !d.IsBranch() && !d.IsJump()
  }

  /** A fetched site holds the decoding of the mapped word. */
  lemma FetchedSite(m: MapValue, pc: U32, requireExecutable: bool)
    requires WellFormed(m) && FetchSite(m, pc, requireExecutable).Some?
    ensures var site := FetchSite(m, pc, requireExecutable).value;
            site.pc == pc && site.decoded == D.Decode(site.decoded.raw) && ReadU32At(m, pc) == Some(site.decoded.raw)
  {
  }

  /** One step of a scan. The result does not depend on the limit unless the
      instruction at pc is straight-line. */
  lemma ScanStep(m: MapValue, requireExecutable: bool, pc: U32, limit: nat, other: nat)
    requires WellFormed(m) && limit > 0 && other > 0
    ensures var site, r := FetchSite(m, pc, requireExecutable), Scan(m, requireExecutable, pc, limit);
            if site.None? then r.ScanFailed? && r == Scan(m, requireExecutable, pc, other)
            else if Straight(site.value.decoded) then
              r == Prepend([site.value], Scan(m, requireExecutable, ToU32(pc + 4), limit - 1))
            else
              && r == Scan(m, requireExecutable, pc, other)
              && (r.Scanned? ==> r.instructions == [site.value] && r.ending.endKind != InstructionLimit)
  {
    hide FetchSite, D.Decode, FinishControlTransfer, ToU32, WellFormed;
    if FetchSite(m, pc, requireExecutable).Some? {
      FetchedSite(m, pc, requireExecutable);
      UnexpectedArmsUnreachable(m, FetchSite(m, pc, requireExecutable).value.decoded.raw, pc, requireExecutable);
    }
  }

  lemma {:induction false} ScanLength(m: MapValue, requireExecutable: bool, pc: U32, limit: nat)
    requires WellFormed(m)
    ensures var r := Scan(m, requireExecutable, pc, limit);
            r.Scanned? ==>
              && |r.instructions| <= limit && (limit > 0 ==> |r.instructions| > 0)
              && (r.ending.endKind == InstructionLimit ==>
                    |r.instructions| == limit && r.ending == LimitEnding(PcAt(pc, limit)))
    decreases limit
  {
    hide Scan, FetchSite, Straight, ToU32, PcAt, WellFormed;
    PcStep(pc, 0);
    ScanNothing(m, requireExecutable, pc);
    if limit > 0 {
      ScanStep(m, requireExecutable, pc, limit, limit);
      ScanLength(m, requireExecutable, ToU32(pc + 4), limit - 1);
      PcStep(pc, limit - 1);
    }
  }

  /** A scanned block is the run of consecutive words from pc: each instruction
      is what is fetched at its PC, and is straight-line unless it is the one that
      ends the block. */
  lemma {:induction false} ScanSites(m: MapValue, requireExecutable: bool, pc: U32, limit: nat, k: nat)
    requires WellFormed(m)
    requires Scan(m, requireExecutable, pc, limit).Scanned? && k < |Scan(m, requireExecutable, pc, limit).instructions|
    ensures var r := Scan(m, requireExecutable, pc, limit);
            && FetchSite(m, PcAt(pc, k), requireExecutable) == Some(r.instructions[k])
            && (Straight(r.instructions[k].decoded) <==>
                k + 1 < |r.instructions| || r.ending.endKind == InstructionLimit)
    decreases limit
  {
    hide Scan, FetchSite, Straight, ToU32, PcAt, WellFormed;
    ScanLength(m, requireExecutable, pc, limit);
    ScanNothing(m, requireExecutable, pc);
    if limit > 0 {
      ScanStep(m, requireExecutable, pc, limit, limit);
      ScanLength(m, requireExecutable, ToU32(pc + 4), limit - 1);
      PcStep(pc, if k > 0 then k - 1 else 0);
      if k > 0 {
        ScanSites(m, requireExecutable, ToU32(pc + 4), limit - 1, k - 1);
      } else if limit == 1 {
        ScanNothing(m, requireExecutable, ToU32(pc + 4));
      }
    }
  }

  lemma ScanNothing(m: MapValue, requireExecutable: bool, pc: U32)
    requires WellFormed(m)
    ensures Scan(m, requireExecutable, pc, 0) == Scanned([], LimitEnding(pc))
  {
  }

  /** Splitting a scan: with a larger limit a scan that hit its limit goes on from
      where it stopped, and any other scan is unchanged. */
  lemma {:induction false} ScanSplit(m: MapValue, requireExecutable: bool, pc: U32, a: nat, b: nat)
    requires WellFormed(m)
    ensures var r := Scan(m, requireExecutable, pc, a);
            Scan(m, requireExecutable, pc, a + b) ==
            if r.Scanned? && r.ending.endKind == InstructionLimit
            then Prepend(r.instructions, Scan(m, requireExecutable, PcAt(pc, a), b))
            else r
    decreases a
  {
    hide Scan, FetchSite, Straight, ToU32, PcAt, WellFormed;
    if a == 0 {
      PcStep(pc, 0);
      ScanNothing(m, requireExecutable, pc);
      var rest := Scan(m, requireExecutable, pc, b);
      assert Prepend([], rest) == rest by {
        if rest.Scanned? {
          assert [] + rest.instructions == rest.instructions;
        }
      }
    } else {
      ScanStep(m, requireExecutable, pc, a, a + b);
      ScanStep(m, requireExecutable, pc, a + b, a);
      var site := FetchSite(m, pc, requireExecutable);
      if site.Some? {
        ScanSplit(m, requireExecutable, ToU32(pc + 4), a - 1, b);
        PcStep(pc, a - 1);
        var inner, rest := Scan(m, requireExecutable, ToU32(pc + 4), a - 1), Scan(m, requireExecutable, PcAt(pc, a), b);
        if inner.Scanned? && rest.Scanned? {
          assert [site.value] + (inner.instructions + rest.instructions) ==
            ([site.value] + inner.instructions) + rest.instructions;
        }
      }
    }
  }

  /** Block splitting. If analysis with limit a ends at its limit, at fallthrough
      target t, then analysis with limit a + b is that block followed by the
      analysis from t with limit b, with the error or the ending of the latter.
      Otherwise it is the result for limit a. */
  lemma BlockSplit(m: MapValue, startPc: U32, requireExecutable: bool, a: U64, b: U64)
    requires WellFormed(m) && a > 0 && b > 0 && a as int + b < 0x1_0000_0000_0000_0000
    ensures var first := AnalyzeBlock(m, startPc, ControlFlowOptions(a, requireExecutable));
            var whole := AnalyzeBlock(m, startPc, ControlFlowOptions(a as int + b, requireExecutable));
            if first.BlockOk? && first.block.ending.endKind == InstructionLimit then
              var t := PcAt(startPc, a);
              var second := AnalyzeBlock(m, t, ControlFlowOptions(b, requireExecutable));
              && first.block.ending.edges == [Edge(Fallthrough, Some(t))] && |first.block.instructions| == a
              && whole == if second.BlockFailed? then second
                          else BlockOk(BasicBlock(startPc, first.block.instructions + second.block.instructions,
                                                  second.block.ending))
            else whole == first
  {
    hide Scan;
    if startPc % 4 == 0 {
      ScanSplit(m, requireExecutable, startPc, a, b);
      ScanLength(m, requireExecutable, startPc, a);
      D.AlignedWraps(startPc + 4 * a);
    }
  }

  // ---------------------------------------------------------------- edges

  predicate AlignedEdge(e: Edge) { e.target.Some? ==> e.target.value % 4 == 0 }

  lemma EndingEdges(m: MapValue, d: D.Decoded, pc: U32, requireExecutable: bool)
    requires WellFormed(m) && pc % 4 == 0
    ensures var r := FinishControlTransfer(m, Site(pc, d), requireExecutable);
            r.EndingOk? ==> |r.ending.edges| <= 2 && forall e | e in r.ending.edges :: AlignedEdge(e)
  {
    hide D.Decoded.DirectTarget, FetchSite, ToU32, DelaySlotFailure, WellFormed;
    D.AlignedWraps(pc + 8);
    if d.DirectTarget(pc).Some? {
      D.DirectTargetAligned(d, pc);
    }
  }

  lemma {:induction false} ScanEdges(m: MapValue, requireExecutable: bool, pc: U32, limit: nat)
    requires WellFormed(m) && pc % 4 == 0
    ensures var r := Scan(m, requireExecutable, pc, limit);
            r.Scanned? ==> |r.ending.edges| <= 2 && forall e | e in r.ending.edges :: AlignedEdge(e)
    decreases limit
  {
    hide FetchSite, D.Decode, FinishControlTransfer, ToU32, WellFormed;
    if limit > 0 && FetchSite(m, pc, requireExecutable).Some? {
      FetchedSite(m, pc, requireExecutable);
      EndingEdges(m, FetchSite(m, pc, requireExecutable).value.decoded, pc, requireExecutable);
      D.AlignedWraps(pc + 4);
      ScanEdges(m, requireExecutable, ToU32(pc + 4), limit - 1);
    }
  }

  /** A block starts aligned, has at most two outgoing edges, and every target
      they name is aligned: following edges never causes an unaligned start. */
  lemma BlockEdges(m: MapValue, startPc: U32, options: ControlFlowOptions)
    requires WellFormed(m) && AnalyzeBlock(m, startPc, options).BlockOk?
    ensures var block := AnalyzeBlock(m, startPc, options).block;
            && startPc % 4 == 0 && options.maxInstructions > 0 && |block.ending.edges| <= 2
            && forall e | e in block.ending.edges :: AlignedEdge(e)
  {
    hide Scan;
    ScanEdges(m, options.requireExecutable, startPc, options.maxInstructions);
  }

  // ---------------------------------------------------------------- the analyzer over the map object

  method QueryStatus(memory: Ps2MemoryMap, address: U32, length: nat) returns (r: RangeStatus)
    requires memory.Valid()
    ensures r == Status(memory.Value(), address, length)
  {
    assert memory.regions == Regions(memory.Value());
    if length > GUEST_ADDRESS_SPACE_SIZE || address + length > GUEST_ADDRESS_SPACE_SIZE {
      return Unmapped;
    }
    for i := 0 to |memory.regions|
      invariant StatusFrom(memory.regions, address, address + length, 0) ==
                StatusFrom(memory.regions, address, address + length, i)
    {
      if Holds(memory.regions[i], address, address + length) {
        return if HasExecuteFlag(memory.regions[i].flags) then Executable else NonExecutable;
      }
    }
    r := Unmapped;
  }

  method Fetch(memory: Ps2MemoryMap, pc: U32, requireExecutable: bool) returns (r: Option<Site>)
    requires memory.Valid()
    ensures r == FetchSite(memory.Value(), pc, requireExecutable)
  {
    hide D.Decode, Status, ReadU32At;
    var word := memory.ReadU32(pc);
    if word.None? {
      return None;
    }
    if requireExecutable {
      var status := QueryStatus(memory, pc, 4);
      if status != Executable {
        return None;
      }
    }
    r := Some(Site(pc, D.Decode(word.value)));
  }

  lemma PrependTwice(front: seq<Site>, site: Site, r: ScanResult)
    ensures Prepend(front, Prepend([site], r)) == Prepend(front + [site], r)
  {
    if r.Scanned? {
      assert front + ([site] + r.instructions) == (front + [site]) + r.instructions;
    }
  }

  /** analyze_r5900_basic_block. */
  method AnalyzeR5900BasicBlock(memory: Ps2MemoryMap, startPc: U32, options: ControlFlowOptions)
    returns (result: BlockResult)
    requires memory.Valid()
    ensures result == AnalyzeBlock(memory.Value(), startPc, options)
  {
    hide FetchSite, Status, D.Decode, FinishControlTransfer, WellFormed, ToU32;
    if options.maxInstructions == 0 {
      return BlockFailed(InvalidInstructionLimit);
    }
    if startPc % 4 != 0 {
      return BlockFailed(UnalignedStart);
    }
    ghost var m := memory.Value();
    var instructions := [];
    var pc := startPc;
    for i := 0 to options.maxInstructions
      invariant Prepend(instructions, Scan(m, options.requireExecutable, pc, options.maxInstructions - i)) ==
                Scan(m, options.requireExecutable, startPc, options.maxInstructions)
    {
      var site := Fetch(memory, pc, options.requireExecutable);
      if site.None? {
        var status := QueryStatus(memory, pc, 4);
        return BlockFailed(if options.requireExecutable && status == NonExecutable then NonExecutableInstruction
                           else UnmappedInstruction);
      }
      PrependTwice(instructions, site.value,
                   Scan(m, options.requireExecutable, ToU32(pc as int + 4), options.maxInstructions - i - 1));
      instructions := instructions + [site.value];
      var decoded := site.value.decoded;
      if decoded.instruction == D.Unknown {
        return BlockOk(BasicBlock(startPc, instructions, PlainEnding(UnsupportedInstruction)));
      }
      if decoded.instructionClass == D.System {
        return BlockOk(BasicBlock(startPc, instructions, PlainEnding(Trap)));
      }
      if decoded.IsBranch() || decoded.IsJump() {
        var ending := FinishTransfer(memory, site.value, options.requireExecutable);
        if ending.EndingFailed? {
          return BlockFailed(ending.error);
        }
        return BlockOk(BasicBlock(startPc, instructions, ending.ending));
      }
      pc := ToU32(pc as int + 4);
    }
    result := BlockOk(BasicBlock(startPc, instructions, LimitEnding(pc)));
  }

  method FinishTransfer(memory: Ps2MemoryMap, terminator: Site, requireExecutable: bool) returns (r: EndingResult)
    requires memory.Valid()
    ensures r == FinishControlTransfer(memory.Value(), terminator, requireExecutable)
  {
    hide FetchSite, D.Decode, Status, D.Decoded.DirectTarget, ToU32, WellFormed;
    var delayPc := ToU32(terminator.pc + 4);
    var continuation := Some(ToU32(terminator.pc + 8));
    var slot := Fetch(memory, delayPc, requireExecutable);
    if slot.None? {
      var status := QueryStatus(memory, delayPc, 4);
      return EndingFailed(if requireExecutable && status == NonExecutable then NonExecutableDelaySlot
                          else MissingDelaySlot);
    }
    var target := terminator.decoded.DirectTarget(terminator.pc);
    if terminator.decoded.IsBranch() {
      if target.None? {
        return EndingFailed(UnmappedInstruction);
      }
      return JumpEnding(slot.value, ConditionalBranch, terminator,
                        [Edge(BranchTaken, target), Edge(BranchNotTaken, continuation)]);
    }
    match terminator.decoded.instruction {
      case J =>
        if target.None? {
          return EndingFailed(UnmappedInstruction);
        }
        return JumpEnding(slot.value, DirectJump, terminator, [Edge(DirectJumpEdge, target)]);
      case Jal =>
        if target.None? {
          return EndingFailed(UnmappedInstruction);
        }
        return JumpEnding(slot.value, DirectCall, terminator,
                          [Edge(DirectCallEdge, target), Edge(CallContinuation, continuation)]);
      case Jr =>
        return JumpEnding(slot.value, IndirectJump, terminator, [Edge(IndirectJumpEdge, None)]);
      case Jalr =>
        return JumpEnding(slot.value, IndirectCall, terminator,
                          [Edge(IndirectCallEdge, None), Edge(CallContinuation, continuation)]);
      case _ =>
        return EndingOk(Ending(None, UnsupportedInstruction, !terminator.decoded.likely, []));
    }
  }
}
