/** When a dispatcher run ends in a lowering failure or uses up its budget, decided
    from memory, start PC, instruction limit and block budget alone
    (src/recompiler/windows/r5900_block_dispatcher.cpp). */
module DispatcherStops {
  import opened Words
  import opened Options
  import opened GuestState
  import opened MemoryMap
  import opened ControlFlow
  import opened Dispatcher
  import opened DispatcherRuns
  import D = Decoder
  import L = Lowering
  import E = Executor

  // ---------------------------------------------------------------- chunks of the straight-line run

  /** The chunk that holds instruction k, when chunks have limit instructions. */
  function ChunkIndex(k: nat, limit: nat): nat
    requires limit > 0
  {
    k / limit
  }

  /** The first instruction of the chunk that holds instruction k. */
  function ChunkStart(k: nat, limit: nat): nat
    requires limit > 0
  {
    k / limit * limit
  }

  lemma FirstChunk(k: nat, limit: nat)
    requires k < limit
    ensures ChunkIndex(k, limit) == 0 && ChunkStart(k, limit) == 0
  {
    RemainderUnique(k, limit, 0, k);
  }

  lemma NextChunk(k: nat, limit: nat)
    requires limit > 0
    ensures ChunkIndex(limit + k, limit) == 1 + ChunkIndex(k, limit)
    ensures ChunkStart(limit + k, limit) == limit + ChunkStart(k, limit)
  {
    var q := k / limit;
    assert (1 + q) * limit == limit + q * limit;
    RemainderUnique(limit + k, limit, 1 + q, k % limit);
  }

  lemma ChunkRemainder(k: nat, limit: nat)
    requires limit > 0
    ensures ChunkStart(k, limit) <= k && (ChunkStart(k, limit) == k <==> k % limit == 0)
  {
    assert k == k / limit * limit + k % limit;
  }

  /** The dispatcher reaches instruction k within its budget, the instructions
      before it run, the chunk it lies in analyzes, and it does not lower. All of
      this is a matter of memory, options, start PC and budget. */
  predicate FailsInChunk(m: MapValue, o: ControlFlowOptions, pc: U32, k: nat, budget: nat)
    requires WellFormed(m)
  {
    && o.maxInstructions > 0
    && RunnableRun(m, o.requireExecutable, pc, k)
    && Unlowerable(m, o.requireExecutable, PcAt(pc, k))
    && ChunkIndex(k, o.maxInstructions) < budget
    && AnalyzeBlock(m, PcAt(pc, ChunkStart(k, o.maxInstructions)), o).BlockOk?
  }

  /** Some instruction the dispatcher reaches fails to lower. */
  ghost predicate FailsSomewhere(m: MapValue, o: ControlFlowOptions, pc: U32, budget: nat)
    requires WellFormed(m)
  {
    exists k: nat :: FailsInChunk(m, o, pc, k, budget)
  }

  /** Some instruction behind the first of its chunk fails to lower. */
  ghost predicate FailsInsideChunk(m: MapValue, o: ControlFlowOptions, pc: U32, budget: nat)
    requires WellFormed(m)
  {
    exists k: nat :: FailsInChunk(m, o, pc, k, budget) && k % o.maxInstructions != 0
  }

  lemma SubtableControlMove(raw: U32, rs: U8, rt: U8, sa: U8, funct: U8)
    ensures D.DecodeSpecial(raw, funct).instruction != D.Ctc1 && D.DecodeRegimm(rt).instruction != D.Ctc1
    ensures D.DecodeMmi(funct, sa).instruction != D.Ctc1
    ensures D.DecodeCop1(rs, funct).instruction == D.Ctc1 ==> D.DecodeCop1(rs, funct).instructionClass == D.Alu
  {
    hide D.Consistent;
  }

  lemma ControlMoveIsAlu(raw: U32, primary: U8, rs: U8, rt: U8, sa: U8, funct: U8)
    requires D.Classify(raw, primary, rs, rt, sa, funct).instruction == D.Ctc1
    ensures D.Classify(raw, primary, rs, rt, sa, funct).instructionClass == D.Alu
  {
    hide D.DecodeSpecial, D.DecodeRegimm, D.DecodeCop1, D.DecodeMmi, D.Consistent;
    SubtableControlMove(raw, rs, rt, sa, funct);
  }

  /** What does not lower although it is taken into a chunk is exactly a CTC1 to a
      control register other than 31. */
  lemma UnlowerableIff(m: MapValue, requireExecutable: bool, pc: U32)
    requires WellFormed(m)
    ensures var site := FetchSite(m, pc, requireExecutable);
            Unlowerable(m, requireExecutable, pc) <==>
            site.Some? && site.value.decoded.instruction == D.Ctc1 && site.value.decoded.rd != 31
  {
    hide FetchSite, D.Classify, L.Lower, WellFormed;
    var site := FetchSite(m, pc, requireExecutable);
    if site.Some? {
      FetchedSite(m, pc, requireExecutable);
      var raw := site.value.decoded.raw;
      if site.value.decoded.instruction == D.Ctc1 {
        ControlMoveIsAlu(raw, D.Primary(raw), D.Rs(raw), D.Rt(raw), D.Sa(raw), D.Funct(raw));
      }
      if BoundaryOf(site.value.decoded).None? {
        EligibleLowers(site.value.decoded, pc);
      }
    }
  }

  lemma PcAtAligned(pc: U32, k: nat)
    ensures PcAt(pc, k) % 4 == 0 <==> pc % 4 == 0
  {
    var q := (pc + 4 * k) / 0x1_0000_0000;
    assert pc + 4 * k == 0x1_0000_0000 * q + PcAt(pc, k);
    RemainderUnique(PcAt(pc, k), 4, pc / 4 + k - 0x4000_0000 * q, pc % 4);
  }

  /** A run of a + b instructions is a run of a and a run of b behind it. */
  lemma RunnableSplit(m: MapValue, requireExecutable: bool, pc: U32, a: nat, b: nat)
    requires WellFormed(m)
    ensures RunnableRun(m, requireExecutable, pc, a + b) <==>
            RunnableRun(m, requireExecutable, pc, a) && RunnableRun(m, requireExecutable, PcAt(pc, a), b)
  {
    hide Runnable, WellFormed, PcAt;
    forall k | 0 <= k < b
      ensures PcAt(PcAt(pc, a), k) == PcAt(pc, a + k)
    {
      PcAtAdd(pc, a, k);
    }
    if RunnableRun(m, requireExecutable, pc, a) && RunnableRun(m, requireExecutable, PcAt(pc, a), b) {
      forall k | 0 <= k < a + b
        ensures Runnable(m, requireExecutable, PcAt(pc, k))
      {
        if k >= a {
          assert Runnable(m, requireExecutable, PcAt(PcAt(pc, a), k - a));
        }
      }
    }
  }

  /** Failing behind a full chunk is failing from the next chunk on, with one block
      less to go. */
  lemma FailsBehindChunk(m: MapValue, o: ControlFlowOptions, pc: U32, k: nat, budget: nat)
    requires WellFormed(m) && o.maxInstructions > 0 && budget > 0
    requires RunnableRun(m, o.requireExecutable, pc, o.maxInstructions)
    ensures FailsInChunk(m, o, pc, o.maxInstructions + k, budget) <==>
            FailsInChunk(m, o, PcAt(pc, o.maxInstructions), k, budget - 1)
  {
    hide RunnableRun, Unlowerable, AnalyzeBlock, WellFormed, PcAt, ChunkIndex, ChunkStart;
    var n := o.maxInstructions;
    RunnableSplit(m, o.requireExecutable, pc, n, k);
    PcAtAdd(pc, n, k);
    NextChunk(k, n);
    PcAtAdd(pc, n, ChunkStart(k, n));
  }

  // ---------------------------------------------------------------- plans

  /** What is taken into a chunk does not end a block. */
  lemma EligibleIsStraight(d: D.Decoded)
    requires BoundaryOf(d).None?
    ensures Straight(d)
  {
  }

  lemma {:induction false} StraightScan(m: MapValue, requireExecutable: bool, pc: U32, n: nat)
    requires WellFormed(m) && RunnableRun(m, requireExecutable, pc, n)
    ensures Scan(m, requireExecutable, pc, n).Scanned?
    decreases n
  {
    hide Scan, FetchSite, Straight, BoundaryOf, L.Lower, ToU32, PcAt, WellFormed;
    if n == 0 {
      ScanNothing(m, requireExecutable, pc);
    } else {
      PcStep(pc, 0);
      assert Runnable(m, requireExecutable, PcAt(pc, 0));
      EligibleIsStraight(FetchSite(m, pc, requireExecutable).value.decoded);
      ScanStep(m, requireExecutable, pc, n, n);
      var next := ToU32(pc + 4);
      forall k | 0 <= k < n - 1
        ensures Runnable(m, requireExecutable, PcAt(next, k))
      {
        PcStep(pc, k);
      }
      StraightScan(m, requireExecutable, next, n - 1);
    }
  }

  /** A word the dispatcher takes into a chunk. */
  predicate Takeable(m: MapValue, requireExecutable: bool, pc: U32)
    requires WellFormed(m)
  {
    var site := FetchSite(m, pc, requireExecutable);
    site.Some? && BoundaryOf(site.value.decoded).None?
  }

  /** Takeable words at the front of a block that analyzes are in its instructions. */
  lemma BlockCovers(m: MapValue, o: ControlFlowOptions, pc: U32, n: nat)
    requires WellFormed(m) && AnalyzeBlock(m, pc, o).BlockOk? && n <= o.maxInstructions
    requires forall k :: 0 <= k < n ==> Takeable(m, o.requireExecutable, PcAt(pc, k))
    ensures var sites := AnalyzeBlock(m, pc, o).block.instructions;
            n <= |sites| && forall k :: 0 <= k < n ==> BoundaryOf(sites[k].decoded).None?
  {
    hide Scan, FetchSite, Straight, BoundaryOf, PcAt, WellFormed;
    var sites := AnalyzeBlock(m, pc, o).block.instructions;
    ScanLength(m, o.requireExecutable, pc, o.maxInstructions);
    forall k | 0 <= k < n && k < |sites|
      ensures BoundaryOf(sites[k].decoded).None?
    {
      assert Takeable(m, o.requireExecutable, PcAt(pc, k));
      ScanSites(m, o.requireExecutable, pc, o.maxInstructions, k);
    }
    if |sites| < n {
      ScanSites(m, o.requireExecutable, pc, o.maxInstructions, |sites| - 1);
      EligibleIsStraight(sites[|sites| - 1].decoded);
    }
  }

  lemma PlanOfBlock(m: MapValue, o: ControlFlowOptions, pc: U32, n: nat)
    requires WellFormed(m) && AnalyzeBlock(m, pc, o).BlockOk? && 0 < n <= o.maxInstructions
    requires forall k :: 0 <= k < n ==> Takeable(m, o.requireExecutable, PcAt(pc, k))
    ensures var plan := PlanAt(m, o, pc); plan.PlanChunk? && n <= |plan.prefix| <= o.maxInstructions
    ensures n == o.maxInstructions ==> PlanAt(m, o, pc).boundary.None?
  {
    hide Scan, Takeable, BoundaryOf, PcAt, WellFormed;
    BlockCovers(m, o, pc, n);
    ScanLength(m, o.requireExecutable, pc, o.maxInstructions);
  }

  lemma RunnableIsTakeable(m: MapValue, requireExecutable: bool, pc: U32)
    requires WellFormed(m) && (Runnable(m, requireExecutable, pc) || Unlowerable(m, requireExecutable, pc))
    ensures Takeable(m, requireExecutable, pc)
  {
    hide FetchSite, BoundaryOf, L.Lower, WellFormed;
  }

  /** A chunk that no boundary follows is as long as the instruction limit. */
  lemma ContinuingPlan(m: MapValue, o: ControlFlowOptions, pc: U32)
    requires WellFormed(m) && PlanAt(m, o, pc).PlanChunk? && PlanAt(m, o, pc).boundary.None?
    ensures |PlanAt(m, o, pc).prefix| == o.maxInstructions > 0 && pc % 4 == 0
  {
    hide Scan, BoundaryOf, Straight, WellFormed;
    var sites := AnalyzeBlock(m, pc, o).block.instructions;
    ScanLength(m, o.requireExecutable, pc, o.maxInstructions);
    ScanSites(m, o.requireExecutable, pc, o.maxInstructions, |sites| - 1);
    EligibleIsStraight(sites[|sites| - 1].decoded);
  }

  /** From an aligned PC, as many runnable instructions as the limit are a chunk that
      lowers, with no boundary behind it. */
  lemma FullChunk(m: MapValue, o: ControlFlowOptions, pc: U32)
    requires WellFormed(m) && o.maxInstructions > 0 && pc % 4 == 0
    requires RunnableRun(m, o.requireExecutable, pc, o.maxInstructions)
    ensures var plan := PlanAt(m, o, pc);
            && plan.PlanChunk? && plan.boundary.None? && |plan.prefix| == o.maxInstructions
            && LowerAll(plan.prefix).AllLowered?
  {
    hide Scan, FetchSite, Runnable, Takeable, BoundaryOf, LowerAll, PlanAt, PcAt, WellFormed;
    StraightScan(m, o.requireExecutable, pc, o.maxInstructions);
    forall k | 0 <= k < o.maxInstructions
      ensures Takeable(m, o.requireExecutable, PcAt(pc, k))
    {
      RunnableIsTakeable(m, o.requireExecutable, PcAt(pc, k));
    }
    PlanOfBlock(m, o, pc, o.maxInstructions);
    PrefixIsCurrentMemory(m, o, pc);
    LoweredChunk(m, o.requireExecutable, pc, PlanAt(m, o, pc).prefix);
  }

  /** A chunk that analyzes and holds an instruction that does not lower fails there. */
  lemma FailingPlan(m: MapValue, o: ControlFlowOptions, pc: U32, k: nat)
    requires WellFormed(m) && AnalyzeBlock(m, pc, o).BlockOk? && k < o.maxInstructions
    requires RunnableRun(m, o.requireExecutable, pc, k) && Unlowerable(m, o.requireExecutable, PcAt(pc, k))
    ensures var plan := PlanAt(m, o, pc);
            plan.PlanChunk? && LowerAll(plan.prefix) == LowerFailedAt(PcAt(pc, k))
  {
    hide AnalyzeBlock, FetchSite, Runnable, Takeable, BoundaryOf, LowerAll, PlanAt, PcAt, WellFormed;
    var req := o.requireExecutable;
    forall j | 0 <= j < k + 1
      ensures Takeable(m, req, PcAt(pc, j))
    {
      RunnableIsTakeable(m, req, PcAt(pc, j));
    }
    PlanOfBlock(m, o, pc, k + 1);
    PrefixIsCurrentMemory(m, o, pc);
    var prefix := PlanAt(m, o, pc).prefix;
    LoweredChunk(m, req, pc, prefix);
    assert LowerAll(prefix).LowerFailedAt?;
    var j :| 0 <= j < |prefix| && LowerAll(prefix).pc == PcAt(pc, j) && RunnableRun(m, req, pc, j) &&
             !Runnable(m, req, PcAt(pc, j));
    assert j == k;
  }

  /** A chunk that fails to lower holds such an instruction. */
  lemma FailedPlan(m: MapValue, o: ControlFlowOptions, pc: U32, budget: nat) returns (k: nat)
    requires WellFormed(m) && PlanAt(m, o, pc).PlanChunk? && LowerAll(PlanAt(m, o, pc).prefix).LowerFailedAt? &&
             budget > 0
    ensures k < o.maxInstructions && FailsInChunk(m, o, pc, k, budget)
  {
    hide FetchSite, Runnable, BoundaryOf, LowerAll, PlanAt, PcAt, WellFormed, ChunkIndex, ChunkStart, AnalyzeBlock;
    var req, prefix := o.requireExecutable, PlanAt(m, o, pc).prefix;
    PlanAnalyzes(m, o, pc);
    PrefixIsCurrentMemory(m, o, pc);
    LoweredChunk(m, req, pc, prefix);
    k :| 0 <= k < |prefix| && LowerAll(prefix).pc == PcAt(pc, k) && RunnableRun(m, req, pc, k) &&
         !Runnable(m, req, PcAt(pc, k));
    FirstChunk(k, o.maxInstructions);
    PcStep(pc, 0);
  }

  lemma PlanAnalyzes(m: MapValue, o: ControlFlowOptions, pc: U32)
    requires WellFormed(m) && !PlanAt(m, o, pc).PlanFailed?
    ensures AnalyzeBlock(m, pc, o).BlockOk?
  {
    hide AnalyzeBlock, WellFormed;
  }

  // ---------------------------------------------------------------- runs

  /** What a run reports that fails at instruction k of the straight-line run. */
  predicate FailedAt(r: Observable, pc: U32, k: nat, limit: nat)
    requires limit > 0
  {
    && r.reason == LoweringFailure && r.nextPc == PcAt(pc, k)
    && r.instructionsExecuted == ChunkStart(k, limit) && r.blocksExecuted == ChunkIndex(k, limit)
  }

  lemma FailedBehindChunk(r: Observable, pc: U32, k: nat, limit: nat)
    requires limit > 0 && FailedAt(r, PcAt(pc, limit), k, limit)
    ensures FailedAt(AfterBlock(limit, r), pc, limit + k, limit)
  {
    hide PcAt, ChunkIndex, ChunkStart;
    PcAtAdd(pc, limit, k);
    NextChunk(k, limit);
  }

  /** The run behind a full chunk. */
  lemma FullChunkStep(fadd: F32Add, m: MapValue, o: ControlFlowOptions, pc: U32, s: State, budget: nat)
    returns (s': State)
    requires WellFormed(m) && o.maxInstructions > 0 && pc % 4 == 0 && budget > 0
    requires RunnableRun(m, o.requireExecutable, pc, o.maxInstructions)
    ensures var n, next := o.maxInstructions, PcAt(pc, o.maxInstructions);
            UncachedRun(fadd, m, o, pc, s, budget) ==
            AfterBlock(n, if budget == 1 then Stopped(BlockBudgetExhausted, next, s')
                          else UncachedRun(fadd, m, o, next, s', budget - 1))
  {
    hide RunnableRun, LowerAll, PlanAt, PcAt, WellFormed, E.Execute;
    FullChunk(m, o, pc);
    s' := E.Execute(fadd, LowerAll(PlanAt(m, o, pc).prefix).irs, s).state;
  }

  lemma {:induction false} RunFails(fadd: F32Add, m: MapValue, o: ControlFlowOptions, pc: U32, s: State, k: nat,
                                    budget: nat)
    requires WellFormed(m) && FailsInChunk(m, o, pc, k, budget)
    ensures FailedAt(UncachedRun(fadd, m, o, pc, s, budget), pc, k, o.maxInstructions)
    decreases budget
  {
    hide RunnableRun, Unlowerable, LowerAll, PlanAt, AnalyzeBlock, PcAt, WellFormed, E.Execute, ChunkIndex, ChunkStart;
    var n := o.maxInstructions;
    if k < n {
      FirstChunk(k, n);
      PcStep(pc, 0);
      FailingPlan(m, o, pc, k);
    } else {
      RunnableSplit(m, o.requireExecutable, pc, n, k - n);
      NextChunk(k - n, n);
      AnalyzedIsAligned(m, o, pc, ChunkStart(k, n));
      var s' := FullChunkStep(fadd, m, o, pc, s, budget);
      FailsBehindChunk(m, o, pc, k - n, budget);
      RunFails(fadd, m, o, PcAt(pc, n), s', k - n, budget - 1);
      FailedBehindChunk(UncachedRun(fadd, m, o, PcAt(pc, n), s', budget - 1), pc, k - n, n);
    }
  }

  lemma AnalyzedIsAligned(m: MapValue, o: ControlFlowOptions, pc: U32, k: nat)
    requires WellFormed(m) && AnalyzeBlock(m, PcAt(pc, k), o).BlockOk?
    ensures pc % 4 == 0
  {
    hide Scan, WellFormed, PcAt;
    PcAtAligned(pc, k);
  }

  /** A run that goes on behind its first chunk ran a full one. */
  lemma RunContinues(fadd: F32Add, m: MapValue, o: ControlFlowOptions, pc: U32, s: State, budget: nat)
    returns (s': State)
    requires WellFormed(m) && budget > 0 && PlanAt(m, o, pc).PlanChunk? && PlanAt(m, o, pc).boundary.None?
    requires LowerAll(PlanAt(m, o, pc).prefix).AllLowered?
    ensures var n, next := o.maxInstructions, PcAt(pc, o.maxInstructions);
            && n > 0 && pc % 4 == 0 && RunnableRun(m, o.requireExecutable, pc, n)
            && UncachedRun(fadd, m, o, pc, s, budget) ==
               AfterBlock(n, if budget == 1 then Stopped(BlockBudgetExhausted, next, s')
                             else UncachedRun(fadd, m, o, next, s', budget - 1))
  {
    hide RunnableRun, LowerAll, PlanAt, PcAt, WellFormed, E.Execute, StateAfter;
    ContinuingPlan(m, o, pc);
    ChunkOutcome(fadd, m, o, pc, s);
    s' := E.Execute(fadd, LowerAll(PlanAt(m, o, pc).prefix).irs, s).state;
  }

  lemma {:induction false} FailureIsInChunk(fadd: F32Add, m: MapValue, o: ControlFlowOptions, pc: U32, s: State,
                                            budget: nat)
    returns (k: nat)
    requires WellFormed(m) && UncachedRun(fadd, m, o, pc, s, budget).reason == LoweringFailure
    ensures FailsInChunk(m, o, pc, k, budget)
    decreases budget
  {
    hide FailsInChunk, RunnableRun, LowerAll, PlanAt, PcAt, WellFormed, E.Execute;
    PlanReasons(m, o, pc);
    var plan := PlanAt(m, o, pc);
    if LowerAll(plan.prefix).LowerFailedAt? {
      k := FailedPlan(m, o, pc, budget);
    } else {
      var s' := RunContinues(fadd, m, o, pc, s, budget);
      var rest := FailureIsInChunk(fadd, m, o, PcAt(pc, o.maxInstructions), s', budget - 1);
      FailsBehindChunk(m, o, pc, rest, budget);
      k := o.maxInstructions + rest;
    }
  }

  /** The instructions a block budget has room for. */
  function Room(budget: nat, limit: nat): nat { budget * limit }

  lemma RoomStep(budget: nat, limit: nat)
    requires budget > 0
    ensures Room(budget, limit) == limit + Room(budget - 1, limit) && Room(0, limit) == 0
  {
  }

  /** The cacheless run uses up its budget exactly when that many full chunks run. */
  lemma {:induction false} RunExhausts(fadd: F32Add, m: MapValue, o: ControlFlowOptions, pc: U32, s: State, budget: nat)
    requires WellFormed(m) && o.maxInstructions > 0 && pc % 4 == 0 && budget > 0
    requires RunnableRun(m, o.requireExecutable, pc, Room(budget, o.maxInstructions))
    ensures UncachedRun(fadd, m, o, pc, s, budget).reason == BlockBudgetExhausted
    decreases budget
  {
    hide RunnableRun, PlanAt, PcAt, WellFormed, UncachedRun, Room;
    var n := o.maxInstructions;
    RoomStep(budget, n);
    RunnableSplit(m, o.requireExecutable, pc, n, Room(budget - 1, n));
    var s' := FullChunkStep(fadd, m, o, pc, s, budget);
    if budget > 1 {
      PcAtAligned(pc, n);
      RunExhausts(fadd, m, o, PcAt(pc, n), s', budget - 1);
    }
  }

  /** The first chunk of a run that uses up its budget. */
  lemma ExhaustedContinues(fadd: F32Add, m: MapValue, o: ControlFlowOptions, pc: U32, s: State, budget: nat)
    requires WellFormed(m) && UncachedRun(fadd, m, o, pc, s, budget).reason == BlockBudgetExhausted
    ensures budget > 0 && PlanAt(m, o, pc).PlanChunk? && PlanAt(m, o, pc).boundary.None?
    ensures LowerAll(PlanAt(m, o, pc).prefix).AllLowered?
  {
    hide LowerAll, PlanAt, PcAt, WellFormed, E.Execute;
    PlanReasons(m, o, pc);
  }

  lemma {:induction false} ExhaustedRanFully(fadd: F32Add, m: MapValue, o: ControlFlowOptions, pc: U32, s: State,
                                             budget: nat)
    requires WellFormed(m) && UncachedRun(fadd, m, o, pc, s, budget).reason == BlockBudgetExhausted
    ensures budget > 0 && o.maxInstructions > 0 && pc % 4 == 0
    ensures RunnableRun(m, o.requireExecutable, pc, Room(budget, o.maxInstructions))
    ensures UncachedRun(fadd, m, o, pc, s, budget).instructionsExecuted == Room(budget, o.maxInstructions)
    decreases budget
  {
    hide RunnableRun, LowerAll, PlanAt, PcAt, WellFormed, UncachedRun, Room;
    ExhaustedContinues(fadd, m, o, pc, s, budget);
    var n := o.maxInstructions;
    var s' := RunContinues(fadd, m, o, pc, s, budget);
    RoomStep(budget, n);
    if budget > 1 {
      ExhaustedRanFully(fadd, m, o, PcAt(pc, n), s', budget - 1);
      RunnableSplit(m, o.requireExecutable, pc, n, Room(budget - 1, n));
    }
  }

  // ---------------------------------------------------------------- what a caller can tell beforehand

  /** A run ends in a lowering failure exactly when some instruction fails in its
      chunk, whatever the state and the (valid) cache. */
  lemma LoweringFailureIff(fadd: F32Add, m: MapValue, o: ControlFlowOptions, cache: Cache, pc: U32, s: State,
                           budget: nat)
    requires WellFormed(m) && CacheValid(cache)
    ensures CachedRun(fadd, m, o, cache, pc, s, budget).result.reason == LoweringFailure <==>
            FailsSomewhere(m, o, pc, budget)
  {
    hide CachedRun, UncachedRun, CacheValid, FailsInChunk, WellFormed, FailedAt;
    CacheRefinement(fadd, m, o, cache, pc, s, budget);
    if UncachedRun(fadd, m, o, pc, s, budget).reason == LoweringFailure {
      var k := FailureIsInChunk(fadd, m, o, pc, s, budget);
    }
    if FailsSomewhere(m, o, pc, budget) {
      var k: nat :| FailsInChunk(m, o, pc, k, budget);
      FailureReports(fadd, m, o, cache, pc, s, k, budget);
    }
  }

  /** What a run reports that fails at instruction k: the PC of that instruction,
      although only the full chunks before it ran. */
  lemma FailureReports(fadd: F32Add, m: MapValue, o: ControlFlowOptions, cache: Cache, pc: U32, s: State, k: nat,
                       budget: nat)
    requires WellFormed(m) && CacheValid(cache) && FailsInChunk(m, o, pc, k, budget)
    ensures var d := CachedRun(fadd, m, o, cache, pc, s, budget).result;
            && d.reason == LoweringFailure && d.nextPc == PcAt(pc, k)
            && d.instructionsExecuted == ChunkStart(k, o.maxInstructions)
            && d.blocksExecuted == ChunkIndex(k, o.maxInstructions)
  {
    hide CachedRun, UncachedRun, CacheValid, WellFormed, PcAt, ChunkStart, ChunkIndex, RunnableRun, Unlowerable,
      AnalyzeBlock;
    CacheRefinement(fadd, m, o, cache, pc, s, budget);
    RunFails(fadd, m, o, pc, s, k, budget);
  }

  /** The next PC is the start PC plus four per executed instruction, modulo 2^32,
      exactly when no instruction behind the first of its chunk fails to lower. */
  lemma NextPc(fadd: F32Add, m: MapValue, o: ControlFlowOptions, cache: Cache, pc: U32, s: State, budget: nat)
    requires WellFormed(m) && CacheValid(cache)
    ensures var d := CachedRun(fadd, m, o, cache, pc, s, budget).result;
            d.nextPc == ToU32(pc + 4 * d.instructionsExecuted) <==> !FailsInsideChunk(m, o, pc, budget)
  {
    hide CachedRun, CacheValid, FailsInChunk, WellFormed, Runnable, ToU32, ChunkStart, ChunkIndex;
    NextPcByReason(fadd, m, o, cache, pc, s, budget);
    LoweringFailureIff(fadd, m, o, cache, pc, s, budget);
    if FailsSomewhere(m, o, pc, budget) {
      var k := FailureWitness(m, o, pc, budget);
      FailureReports(fadd, m, o, cache, pc, s, k, budget);
      FailsInChunkMeans(m, o, pc, k, budget);
      ChunkRemainder(k, o.maxInstructions);
      var start := ChunkStart(k, o.maxInstructions);
      assert PcAt(pc, start) == ToU32(pc + 4 * start);
      assert start < k ==> Runnable(m, o.requireExecutable, PcAt(pc, start));
    } else {
      NothingFailsInside(m, o, pc, budget);
    }
  }

  /** A failing instruction, behind the first of its chunk if there is such a one. */
  lemma FailureWitness(m: MapValue, o: ControlFlowOptions, pc: U32, budget: nat) returns (k: nat)
    requires WellFormed(m) && FailsSomewhere(m, o, pc, budget)
    ensures FailsInChunk(m, o, pc, k, budget) && o.maxInstructions > 0
    ensures k % o.maxInstructions != 0 <==> FailsInsideChunk(m, o, pc, budget)
  {
    hide AnalyzeBlock, RunnableRun, Unlowerable, WellFormed, PcAt, ChunkIndex, ChunkStart;
    if FailsInsideChunk(m, o, pc, budget) {
      k :| FailsInChunk(m, o, pc, k, budget) && k % o.maxInstructions != 0;
    } else {
      k :| FailsInChunk(m, o, pc, k, budget);
    }
  }

  lemma NothingFailsInside(m: MapValue, o: ControlFlowOptions, pc: U32, budget: nat)
    requires WellFormed(m) && !FailsSomewhere(m, o, pc, budget)
    ensures !FailsInsideChunk(m, o, pc, budget)
  {
    hide FailsInChunk, WellFormed;
  }

  lemma FailsInChunkMeans(m: MapValue, o: ControlFlowOptions, pc: U32, k: nat, budget: nat)
    requires WellFormed(m) && FailsInChunk(m, o, pc, k, budget)
    ensures o.maxInstructions > 0 && !Runnable(m, o.requireExecutable, PcAt(pc, k))
    ensures forall j :: 0 <= j < k ==> Runnable(m, o.requireExecutable, PcAt(pc, j))
  {
    hide AnalyzeBlock, FetchSite, Runnable, WellFormed, PcAt;
  }

  /** From an aligned PC, as many instructions run as the budget has room for. */
  predicate FullBudgetRuns(m: MapValue, o: ControlFlowOptions, pc: U32, budget: nat)
    requires WellFormed(m)
  {
    && budget > 0 && o.maxInstructions > 0 && pc % 4 == 0
    && RunnableRun(m, o.requireExecutable, pc, Room(budget, o.maxInstructions))
  }

  lemma UncachedExhaustedIff(fadd: F32Add, m: MapValue, o: ControlFlowOptions, pc: U32, s: State, budget: nat)
    requires WellFormed(m)
    ensures var r := UncachedRun(fadd, m, o, pc, s, budget);
            && (r.reason == BlockBudgetExhausted <==> FullBudgetRuns(m, o, pc, budget))
            && (r.reason == BlockBudgetExhausted ==> r.instructionsExecuted == budget * o.maxInstructions)
  {
    hide UncachedRun, WellFormed, RunnableRun;
    if UncachedRun(fadd, m, o, pc, s, budget).reason == BlockBudgetExhausted {
      ExhaustedRanFully(fadd, m, o, pc, s, budget);
    } else if FullBudgetRuns(m, o, pc, budget) {
      RunExhausts(fadd, m, o, pc, s, budget);
    }
  }

  /** A run uses up its budget exactly when, from an aligned PC, that many full
      chunks of instructions run; then it executed exactly those. */
  lemma BudgetExhaustedIff(fadd: F32Add, m: MapValue, o: ControlFlowOptions, cache: Cache, pc: U32, s: State,
                           budget: nat)
    requires WellFormed(m) && CacheValid(cache)
    ensures var d := CachedRun(fadd, m, o, cache, pc, s, budget).result;
            && (d.reason == BlockBudgetExhausted <==> FullBudgetRuns(m, o, pc, budget))
            && (d.reason == BlockBudgetExhausted ==> d.instructionsExecuted == budget * o.maxInstructions)
  {
    hide CachedRun, UncachedRun, CacheValid, WellFormed, FullBudgetRuns;
    CacheRefinement(fadd, m, o, cache, pc, s, budget);
    UncachedExhaustedIff(fadd, m, o, pc, s, budget);
  }
}
