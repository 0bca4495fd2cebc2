/** What a basic block is, instruction by instruction: its words, how it ends, where
    its edges go, and why an analysis fails (src/analysis/r5900_control_flow.cpp). */
module BlockFacts {
  import opened Words
  import opened Options
  import opened MemoryMap
  import opened ControlFlow
  import opened DecoderFacts
  import D = Decoder

  // ---------------------------------------------------------------- fetching

  lemma ExecuteFlagIsBitZero(flags: U32)
    ensures HasExecuteFlag(flags) <==> flags % 2 == 1
  {
    assert BitAnd(flags / 2, 0) == 0;
    assert BitAnd(flags, 1) == flags % 2;
  }

  /** An instruction is fetched exactly when its word can be read and, if so required,
      the region it lies in has the PF_X flag. */
  lemma FetchMeans(m: MapValue, pc: U32, requireExecutable: bool)
    requires WellFormed(m)
    ensures var word, site := ReadU32At(m, pc), FetchSite(m, pc, requireExecutable);
            && (word.Some? <==> Translate(m, pc, 4).Some?)
            && (site.Some? <==>
                word.Some? && (requireExecutable ==> m[Translate(m, pc, 4).value.region].metadata.flags % 2 == 1))
            && (site.Some? ==> site.value == Site(pc, D.Decode(word.value)))
  {
    hide D.Decode, Status, HasExecuteFlag, LeU32;
    StatusAgreesWithTranslate(m, pc, 4);
    if Translate(m, pc, 4).Some? {
      ExecuteFlagIsBitZero(m[Translate(m, pc, 4).value.region].metadata.flags);
    }
  }

  /** A straight-line word is a known one that neither branches, jumps nor traps. */
  lemma StraightMeans(word: U32)
    ensures var d := D.Decode(word);
            Straight(d) <==> d.instruction != D.Unknown && !BranchCode(d.primaryOpcode, d.rt) &&
                             !JumpCode(d.primaryOpcode, d.funct) && !TrapCode(d.primaryOpcode, d.funct)
  {
    hide D.Classify, BranchCode, JumpCode, TrapCode, LoadCode, StoreCode, WidthCode, LikelyCode, LinkCode;
    DecodedAttributes(word);
  }

  // ---------------------------------------------------------------- endings

  /** The ending of a block whose last instruction is d: next is the PC behind it,
      continuation the one behind its delay slot. */
  predicate EndsAs(e: Ending, d: D.Decoded, target: Option<U32>, slot: Option<Site>, next: U32, continuation: U32) {
    if d.instruction == D.Unknown then e == Ending(None, UnsupportedInstruction, true, [])
    else if d.instruction == D.Syscall || d.instruction == D.Break then e == Ending(None, Trap, true, [])
    else if d.instruction == D.J then
      slot.Some? && target.Some? && e == Ending(slot, DirectJump, true, [Edge(DirectJumpEdge, target)])
    else if d.instruction == D.Jal then
      slot.Some? && target.Some? &&
      e == Ending(slot, DirectCall, true, [Edge(DirectCallEdge, target), Edge(CallContinuation, Some(continuation))])
    else if d.instruction == D.Jr then
      slot.Some? && e == Ending(slot, IndirectJump, true, [Edge(IndirectJumpEdge, None)])
    else if d.instruction == D.Jalr then
      slot.Some? &&
      e == Ending(slot, IndirectCall, true, [Edge(IndirectCallEdge, None), Edge(CallContinuation, Some(continuation))])
    else if d.IsBranch() then
      slot.Some? && target.Some? &&
      e == Ending(slot, ConditionalBranch, !d.likely,
                  [Edge(BranchTaken, target), Edge(BranchNotTaken, Some(continuation))])
    else
      e == Ending(None, InstructionLimit, true, [Edge(Fallthrough, Some(next))])
  }

  lemma TransferEndsAs(m: MapValue, word: U32, pc: U32, requireExecutable: bool)
    requires WellFormed(m) && (D.Decode(word).IsBranch() || D.Decode(word).IsJump())
    ensures var d, r := D.Decode(word), FinishControlTransfer(m, Site(pc, D.Decode(word)), requireExecutable);
            var slot := FetchSite(m, ToU32(pc + 4), requireExecutable);
            if slot.None? then r == EndingFailed(DelaySlotFailure(m, ToU32(pc + 4), requireExecutable))
            else r.EndingOk? && EndsAs(r.ending, d, d.DirectTarget(pc), slot, ToU32(pc + 4), ToU32(pc + 8))
  {
    hide D.Classify, FetchSite, D.Decoded.DirectTarget, ToU32, WellFormed, DelaySlotFailure;
    D.DirectTargetExists(word, pc);
  }

  /** The scan of one instruction that ends a block. */
  lemma LastEndsAs(m: MapValue, word: U32, pc: U32, requireExecutable: bool)
    requires WellFormed(m) && FetchSite(m, pc, requireExecutable) == Some(Site(pc, D.Decode(word)))
    requires !Straight(D.Decode(word))
    ensures var d, r := D.Decode(word), Scan(m, requireExecutable, pc, 1);
            var slot := FetchSite(m, ToU32(pc + 4), requireExecutable);
            if (d.IsBranch() || d.IsJump()) && slot.None? then
              r == ScanFailed(DelaySlotFailure(m, ToU32(pc + 4), requireExecutable))
            else r.Scanned? && EndsAs(r.ending, d, d.DirectTarget(pc), slot, ToU32(pc + 4), ToU32(pc + 8))
  {
    hide D.Classify, FetchSite, D.Decoded.DirectTarget, ToU32, WellFormed, FinishControlTransfer, DelaySlotFailure;
    var d := D.Decode(word);
    if d.IsBranch() || d.IsJump() {
      TransferEndsAs(m, word, pc, requireExecutable);
    }
  }

  /** A block that does not end at its limit ends as its last instruction alone does. */
  lemma {:induction false} ScanLast(m: MapValue, requireExecutable: bool, pc: U32, limit: nat)
    requires WellFormed(m) && limit > 0 && Scan(m, requireExecutable, pc, limit).Scanned?
    ensures var r := Scan(m, requireExecutable, pc, limit);
            var n := |r.instructions|;
            && n > 0 && (!Straight(r.instructions[n - 1].decoded) ==>
                           Scan(m, requireExecutable, PcAt(pc, n - 1), 1) == Scanned([r.instructions[n - 1]], r.ending))
    decreases limit
  {
    hide Scan, FetchSite, Straight, ToU32, PcAt, WellFormed;
    ScanLength(m, requireExecutable, pc, limit);
    ScanStep(m, requireExecutable, pc, limit, 1);
    PcStep(pc, 0);
    if Straight(FetchSite(m, pc, requireExecutable).value.decoded) && limit > 1 {
      ScanLast(m, requireExecutable, ToU32(pc + 4), limit - 1);
      PcStep(pc, |Scan(m, requireExecutable, ToU32(pc + 4), limit - 1).instructions| - 1);
    } else if limit == 1 {
      ScanNothing(m, requireExecutable, ToU32(pc + 4));
    }
  }

  lemma SlotPcs(pc: U32, n: nat)
    requires n > 0
    ensures ToU32(PcAt(pc, n - 1) + 4) == PcAt(pc, n) && ToU32(PcAt(pc, n - 1) + 8) == PcAt(pc, n + 1)
  {
    hide ToU32;
    ReduceFirst(pc + 4 * (n - 1), 4);
    ReduceFirst(pc + 4 * (n - 1), 8);
  }

  lemma LimitEndsAs(word: U32, target: Option<U32>, slot: Option<Site>, next: U32, continuation: U32)
    requires Straight(D.Decode(word))
    ensures EndsAs(LimitEnding(next), D.Decode(word), target, slot, next, continuation)
  {
    hide D.Classify;
    TrapsAreSystem(word);
  }

  lemma ScanEndsAs(m: MapValue, requireExecutable: bool, pc: U32, limit: nat)
    requires WellFormed(m) && limit > 0 && Scan(m, requireExecutable, pc, limit).Scanned?
    ensures var r := Scan(m, requireExecutable, pc, limit);
            var n := |r.instructions|;
            && 0 < n <= limit
            && var d, slot := r.instructions[n - 1].decoded, FetchSite(m, PcAt(pc, n), requireExecutable);
               && EndsAs(r.ending, d, d.DirectTarget(PcAt(pc, n - 1)), slot, PcAt(pc, n), PcAt(pc, n + 1))
               && (Straight(d) ==> n == limit)
  {
    hide Scan, FetchSite, ToU32, PcAt, WellFormed, D.Decode, D.Decoded.DirectTarget, EndsAs, Straight;
    var r := Scan(m, requireExecutable, pc, limit);
    var n := |r.instructions|;
    ScanLength(m, requireExecutable, pc, limit);
    ScanSites(m, requireExecutable, pc, limit, n - 1);
    FetchedSite(m, PcAt(pc, n - 1), requireExecutable);
    SlotPcs(pc, n);
    var last := r.instructions[n - 1];
    if Straight(last.decoded) {
      var slot := FetchSite(m, PcAt(pc, n), requireExecutable);
      LimitEndsAs(last.decoded.raw, last.decoded.DirectTarget(PcAt(pc, n - 1)), slot, PcAt(pc, n), PcAt(pc, n + 1));
    } else {
      ScanLast(m, requireExecutable, pc, limit);
      LastEndsAs(m, last.decoded.raw, PcAt(pc, n - 1), requireExecutable);
    }
  }

  lemma TrapsAreSystem(word: U32)
    ensures var d := D.Decode(word);
            && (d.instructionClass == D.System <==> d.instruction == D.Syscall || d.instruction == D.Break)
            && (d.IsJump() <==> d.instruction == D.J || d.instruction == D.Jal || d.instruction == D.Jr ||
                                d.instruction == D.Jalr)
  {
    hide D.Classify;
  }

  /** A block that analyzes: its instructions are the words at consecutive PCs from its
      start, straight-line up to the last; its ending, delay slot and edges are those
      of its last instruction, and it goes on behind that one only at the limit. */
  lemma BlockMeans(m: MapValue, startPc: U32, o: ControlFlowOptions)
    requires WellFormed(m) && AnalyzeBlock(m, startPc, o).BlockOk?
    ensures var b := AnalyzeBlock(m, startPc, o).block;
            var n := |b.instructions|;
            && b.startPc == startPc && startPc % 4 == 0 && 0 < n <= o.maxInstructions
            && (forall k :: 0 <= k < n ==>
                  && FetchSite(m, PcAt(startPc, k), o.requireExecutable) == Some(b.instructions[k])
                  && (k + 1 < n ==> Straight(b.instructions[k].decoded)))
            && var d, slot := b.instructions[n - 1].decoded, FetchSite(m, PcAt(startPc, n), o.requireExecutable);
               && EndsAs(b.ending, d, d.DirectTarget(PcAt(startPc, n - 1)), slot, PcAt(startPc, n),
                         PcAt(startPc, n + 1))
               && (Straight(d) ==> n == o.maxInstructions)
  {
    hide Scan, FetchSite, Straight, EndsAs, ToU32, PcAt, WellFormed, D.Decoded.DirectTarget;
    var b := AnalyzeBlock(m, startPc, o).block;
    ScanEndsAs(m, o.requireExecutable, startPc, o.maxInstructions);
    forall k | 0 <= k < |b.instructions|
      ensures FetchSite(m, PcAt(startPc, k), o.requireExecutable) == Some(b.instructions[k])
      ensures k + 1 < |b.instructions| ==> Straight(b.instructions[k].decoded)
    {
      ScanSites(m, o.requireExecutable, startPc, o.maxInstructions, k);
    }
  }

  // ---------------------------------------------------------------- failures

  /** The analysis fails at instruction k: it is not fetched, or it is a transfer whose
      delay slot is not. The error says which, and whether the word can be read. */
  predicate FailsToScan(m: MapValue, requireExecutable: bool, pc: U32, k: nat, error: ControlFlowError)
    requires WellFormed(m)
  {
    var site, slot := FetchSite(m, PcAt(pc, k), requireExecutable), FetchSite(m, PcAt(pc, k + 1), requireExecutable);
    if site.None? then
      error == if ReadU32At(m, PcAt(pc, k)).None? then UnmappedInstruction else NonExecutableInstruction
    else
      && (site.value.decoded.IsBranch() || site.value.decoded.IsJump()) && slot.None?
      && error == if ReadU32At(m, PcAt(pc, k + 1)).None? then MissingDelaySlot else NonExecutableDelaySlot
  }

  predicate StraightRun(m: MapValue, requireExecutable: bool, pc: U32, n: nat)
    requires WellFormed(m)
  {
    forall j :: 0 <= j < n ==>
      var site := FetchSite(m, PcAt(pc, j), requireExecutable); site.Some? && Straight(site.value.decoded)
  }

  lemma {:induction false} ScanFailsAt(m: MapValue, requireExecutable: bool, pc: U32, limit: nat) returns (k: nat)
    requires WellFormed(m) && Scan(m, requireExecutable, pc, limit).ScanFailed?
    ensures k < limit && StraightRun(m, requireExecutable, pc, k)
    ensures FailsToScan(m, requireExecutable, pc, k, Scan(m, requireExecutable, pc, limit).error)
    decreases limit
  {
    hide Scan, FetchSite, Straight, ToU32, PcAt, WellFormed, D.Decode;
    ScanNothing(m, requireExecutable, pc);
    ScanStep(m, requireExecutable, pc, limit, 1);
    PcStep(pc, 0);
    var site := FetchSite(m, pc, requireExecutable);
    if site.Some? && Straight(site.value.decoded) {
      var next := ToU32(pc + 4);
      k := ScanFailsAt(m, requireExecutable, next, limit - 1);
      PcStep(pc, k);
      PcStep(pc, k + 1);
      forall j | 0 <= j < k + 1
        ensures FetchSite(m, PcAt(pc, j), requireExecutable).Some?
        ensures Straight(FetchSite(m, PcAt(pc, j), requireExecutable).value.decoded)
      {
        if j > 0 {
          PcStep(pc, j - 1);
        }
      }
      k := k + 1;
    } else {
      k := 0;
      FailsAtOnce(m, requireExecutable, pc);
    }
  }

  lemma FailsAtOnce(m: MapValue, requireExecutable: bool, pc: U32)
    requires WellFormed(m) && Scan(m, requireExecutable, pc, 1).ScanFailed?
    requires var site := FetchSite(m, pc, requireExecutable); site.Some? ==> !Straight(site.value.decoded)
    ensures FailsToScan(m, requireExecutable, pc, 0, Scan(m, requireExecutable, pc, 1).error)
  {
    hide Scan, FetchSite, ToU32, PcAt, WellFormed, D.Decode, EndsAs, FetchFailure, DelaySlotFailure,
      D.Decoded.DirectTarget;
    PcStep(pc, 0);
    SlotPcs(pc, 1);
    if FetchSite(m, pc, requireExecutable).None? {
      ScanUnfetched(m, requireExecutable, pc);
      FetchFailureKinds(m, pc, requireExecutable);
    } else {
      FetchedSite(m, pc, requireExecutable);
      LastEndsAs(m, FetchSite(m, pc, requireExecutable).value.decoded.raw, pc, requireExecutable);
      FetchFailureKinds(m, ToU32(pc + 4), requireExecutable);
    }
  }

  lemma ScanUnfetched(m: MapValue, requireExecutable: bool, pc: U32)
    requires WellFormed(m) && FetchSite(m, pc, requireExecutable).None?
    ensures Scan(m, requireExecutable, pc, 1) == ScanFailed(FetchFailure(m, pc, requireExecutable))
  {
    hide FetchSite, WellFormed, FetchFailure;
  }

  lemma FetchFailureKinds(m: MapValue, pc: U32, requireExecutable: bool)
    requires WellFormed(m) && FetchSite(m, pc, requireExecutable).None?
    ensures FetchFailure(m, pc, requireExecutable) ==
            if ReadU32At(m, pc).None? then UnmappedInstruction else NonExecutableInstruction
    ensures DelaySlotFailure(m, pc, requireExecutable) ==
            if ReadU32At(m, pc).None? then MissingDelaySlot else NonExecutableDelaySlot
  {
    hide FetchSite, WellFormed, ReadU32At, Status;
    FetchFailureIsExact(m, pc, requireExecutable);
  }

  /** An analysis fails for a zero limit, else for an unaligned start, else at the first
      instruction within the limit that cannot be fetched, or at a branch or jump within
      it whose delay slot cannot. */
  lemma BlockFails(m: MapValue, startPc: U32, o: ControlFlowOptions)
    requires WellFormed(m) && AnalyzeBlock(m, startPc, o).BlockFailed?
    ensures var error := AnalyzeBlock(m, startPc, o).error;
            if o.maxInstructions == 0 then error == InvalidInstructionLimit
            else if startPc % 4 != 0 then error == UnalignedStart
            else exists k :: 0 <= k < o.maxInstructions && StraightRun(m, o.requireExecutable, startPc, k) &&
                             FailsToScan(m, o.requireExecutable, startPc, k, error)
  {
    hide Scan, StraightRun, FailsToScan, WellFormed;
    if o.maxInstructions > 0 && startPc % 4 == 0 {
      var k := ScanFailsAt(m, o.requireExecutable, startPc, o.maxInstructions);
    }
  }
}
