/** Why a dispatcher run stops, for every stop reason, decided from memory, start PC,
    instruction limit and block budget alone
    (src/recompiler/windows/r5900_block_dispatcher.cpp). */
module DispatcherOutcomes {
  import opened Words
  import opened Options
  import opened GuestState
  import opened MemoryMap
  import opened ControlFlow
  import opened Dispatcher
  import opened DispatcherRuns
  import opened DispatcherStops
  import E = Executor

  // ---------------------------------------------------------------- boundaries

  /** The dispatcher reaches a boundary of this kind at instruction n: the
      instructions before it run, its chunk is within the budget and analyzes. */
  predicate StopsInChunk(m: MapValue, o: ControlFlowOptions, pc: U32, n: nat, reason: StopReason, budget: nat)
    requires WellFormed(m)
  {
    && o.maxInstructions > 0
    && StopsAfter(m, o.requireExecutable, pc, n, reason)
    && ChunkIndex(n, o.maxInstructions) < budget
    && AnalyzeBlock(m, PcAt(pc, ChunkStart(n, o.maxInstructions)), o).BlockOk?
  }

  lemma StopsAfterSplit(m: MapValue, requireExecutable: bool, pc: U32, a: nat, b: nat, reason: StopReason)
    requires WellFormed(m) && RunnableRun(m, requireExecutable, pc, a)
    ensures StopsAfter(m, requireExecutable, pc, a + b, reason) <==>
            StopsAfter(m, requireExecutable, PcAt(pc, a), b, reason)
  {
    hide RunnableRun, FetchSite, BoundaryOf, WellFormed, PcAt;
    RunnableSplit(m, requireExecutable, pc, a, b);
    PcAtAdd(pc, a, b);
  }

  lemma StopsBehindChunk(m: MapValue, o: ControlFlowOptions, pc: U32, n: nat, reason: StopReason, budget: nat)
    requires WellFormed(m) && o.maxInstructions > 0 && budget > 0
    requires RunnableRun(m, o.requireExecutable, pc, o.maxInstructions)
    ensures StopsInChunk(m, o, pc, o.maxInstructions + n, reason, budget) <==>
            StopsInChunk(m, o, PcAt(pc, o.maxInstructions), n, reason, budget - 1)
  {
    hide RunnableRun, StopsAfter, AnalyzeBlock, WellFormed, PcAt, ChunkIndex, ChunkStart;
    var limit := o.maxInstructions;
    StopsAfterSplit(m, o.requireExecutable, pc, limit, n, reason);
    NextChunk(n, limit);
    PcAtAdd(pc, limit, ChunkStart(n, limit));
  }

  /** The block of a chunk that analyzes reaches a fetched instruction behind the
      takeable ones, if the limit leaves room for it. */
  lemma BlockReaches(m: MapValue, o: ControlFlowOptions, pc: U32, n: nat)
    requires WellFormed(m) && AnalyzeBlock(m, pc, o).BlockOk? && n < o.maxInstructions
    requires forall k :: 0 <= k < n ==> Takeable(m, o.requireExecutable, PcAt(pc, k))
    ensures var sites := AnalyzeBlock(m, pc, o).block.instructions;
            && n < |sites| && FetchSite(m, PcAt(pc, n), o.requireExecutable) == Some(sites[n])
            && sites[n].pc == PcAt(pc, n)
            && forall k :: 0 <= k < n ==> BoundaryOf(sites[k].decoded).None?
  {
    hide Scan, FetchSite, Straight, BoundaryOf, PcAt, WellFormed, Takeable;
    var sites := AnalyzeBlock(m, pc, o).block.instructions;
    ScanLength(m, o.requireExecutable, pc, o.maxInstructions);
    BlockCovers(m, o, pc, n);
    if |sites| == n {
      ScanSites(m, o.requireExecutable, pc, o.maxInstructions, n - 1);
      EligibleIsStraight(sites[n - 1].decoded);
    }
    ScanSites(m, o.requireExecutable, pc, o.maxInstructions, n);
    FetchedSite(m, PcAt(pc, n), o.requireExecutable);
  }

  lemma PrefixStopsAt(sites: seq<Site>, n: nat)
    requires n < |sites| && BoundaryOf(sites[n].decoded).Some?
    requires forall k :: 0 <= k < n ==> BoundaryOf(sites[k].decoded).None?
    ensures PrefixLength(sites) == n
  {
    hide BoundaryOf;
  }

  /** The plan at a chunk start from which n instructions run up to a boundary. */
  lemma StoppingPlan(m: MapValue, o: ControlFlowOptions, pc: U32, n: nat, reason: StopReason)
    requires WellFormed(m) && AnalyzeBlock(m, pc, o).BlockOk? && n < o.maxInstructions
    requires StopsAfter(m, o.requireExecutable, pc, n, reason)
    ensures var plan, at := PlanAt(m, o, pc), Boundary(reason, PcAt(pc, n));
            if n == 0 then plan == PlanStop(at)
            else plan.PlanChunk? && |plan.prefix| == n && plan.boundary == Some(at)
  {
    hide AnalyzeBlock, FetchSite, Runnable, Takeable, BoundaryOf, PcAt, WellFormed, PrefixLength;
    forall k | 0 <= k < n
      ensures Takeable(m, o.requireExecutable, PcAt(pc, k))
    {
      RunnableIsTakeable(m, o.requireExecutable, PcAt(pc, k));
    }
    BlockReaches(m, o, pc, n);
    PrefixStopsAt(AnalyzeBlock(m, pc, o).block.instructions, n);
  }

  /** A chunk of runnable instructions lowers. */
  lemma RunnableChunkLowers(m: MapValue, o: ControlFlowOptions, pc: U32)
    requires WellFormed(m) && PlanAt(m, o, pc).PlanChunk?
    requires RunnableRun(m, o.requireExecutable, pc, |PlanAt(m, o, pc).prefix|)
    ensures LowerAll(PlanAt(m, o, pc).prefix).AllLowered?
  {
    hide FetchSite, Runnable, BoundaryOf, LowerAll, PlanAt, PcAt, WellFormed;
    PrefixIsCurrentMemory(m, o, pc);
    LoweredChunk(m, o.requireExecutable, pc, PlanAt(m, o, pc).prefix);
  }

  /** What a run reports that stops at a boundary at instruction n. */
  predicate StoppedAt(r: Observable, pc: U32, n: nat, reason: StopReason) {
    r.reason == reason && r.nextPc == PcAt(pc, n) && r.instructionsExecuted == n
  }

  lemma StoppedBehindChunk(r: Observable, pc: U32, n: nat, reason: StopReason, limit: nat)
    requires StoppedAt(r, PcAt(pc, limit), n, reason)
    ensures StoppedAt(AfterBlock(limit, r), pc, limit + n, reason)
  {
    hide PcAt;
    PcAtAdd(pc, limit, n);
  }

  lemma StopsInFirstChunk(fadd: F32Add, m: MapValue, o: ControlFlowOptions, pc: U32, s: State, n: nat,
                          reason: StopReason, budget: nat)
    requires WellFormed(m) && AnalyzeBlock(m, pc, o).BlockOk? && n < o.maxInstructions && budget > 0
    requires StopsAfter(m, o.requireExecutable, pc, n, reason)
    ensures StoppedAt(UncachedRun(fadd, m, o, pc, s, budget), pc, n, reason)
  {
    hide AnalyzeBlock, RunnableRun, FetchSite, BoundaryOf, PlanAt, LowerAll, E.Execute, PcAt, WellFormed;
    StoppingPlan(m, o, pc, n, reason);
    if n > 0 {
      RunnableChunkLowers(m, o, pc);
    }
  }

  lemma {:induction false} RunStops(fadd: F32Add, m: MapValue, o: ControlFlowOptions, pc: U32, s: State, n: nat,
                                    reason: StopReason, budget: nat)
    requires WellFormed(m) && StopsInChunk(m, o, pc, n, reason, budget)
    ensures StoppedAt(UncachedRun(fadd, m, o, pc, s, budget), pc, n, reason)
    decreases budget
  {
    hide StopsAfter, RunnableRun, AnalyzeBlock, UncachedRun, StoppedAt, PcAt, WellFormed, ChunkIndex, ChunkStart;
    var limit := o.maxInstructions;
    if n < limit {
      FirstChunk(n, limit);
      PcStep(pc, 0);
      StopsInFirstChunk(fadd, m, o, pc, s, n, reason, budget);
    } else {
      StopsBehindFirst(m, o, pc, n, reason, budget);
      var s' := FullChunkStep(fadd, m, o, pc, s, budget);
      RunStops(fadd, m, o, PcAt(pc, limit), s', n - limit, reason, budget - 1);
      StoppedBehindChunk(UncachedRun(fadd, m, o, PcAt(pc, limit), s', budget - 1), pc, n - limit, reason, limit);
    }
  }

  lemma StopsBehindFirst(m: MapValue, o: ControlFlowOptions, pc: U32, n: nat, reason: StopReason, budget: nat)
    requires WellFormed(m) && StopsInChunk(m, o, pc, n, reason, budget) && n >= o.maxInstructions
    ensures var limit := o.maxInstructions;
            && pc % 4 == 0 && budget > 1 && limit > 0 && RunnableRun(m, o.requireExecutable, pc, limit)
            && StopsInChunk(m, o, PcAt(pc, limit), n - limit, reason, budget - 1)
  {
    hide AnalyzeBlock, FetchSite, BoundaryOf, Runnable, PcAt, WellFormed, ChunkIndex, ChunkStart;
    var limit := o.maxInstructions;
    AnalyzedIsAligned(m, o, pc, ChunkStart(n, limit));
    NextChunk(n - limit, limit);
    StopsBehindChunk(m, o, pc, n - limit, reason, budget);
  }

  /** Before a boundary the chunk is shorter than the limit. */
  lemma StoppedPlan(m: MapValue, o: ControlFlowOptions, pc: U32)
    requires WellFormed(m)
    ensures var plan := PlanAt(m, o, pc);
            && (plan.PlanChunk? && plan.boundary.Some? ==> |plan.prefix| < o.maxInstructions)
            && (!plan.PlanFailed? ==> o.maxInstructions > 0)
  {
    hide Scan, BoundaryOf, WellFormed;
    ScanLength(m, o.requireExecutable, pc, o.maxInstructions);
  }

  /** A run that stops at a boundary reached it in an analyzable chunk within its budget. */
  lemma {:induction false} StopIsInChunk(fadd: F32Add, m: MapValue, o: ControlFlowOptions, pc: U32, s: State,
                                         budget: nat)
    requires WellFormed(m) && BoundaryReason(UncachedRun(fadd, m, o, pc, s, budget).reason)
    ensures var r := UncachedRun(fadd, m, o, pc, s, budget);
            StopsInChunk(m, o, pc, r.instructionsExecuted, r.reason, budget)
    decreases budget
  {
    hide StopsInChunk, Describes, LowerAll, PlanAt, PcAt, WellFormed, E.Execute, RunnableRun;
    StoppedPlan(m, o, pc);
    var plan := PlanAt(m, o, pc);
    if plan.PlanChunk? && plan.boundary.None? {
      var s' := RunContinues(fadd, m, o, pc, s, budget);
      StopIsInChunk(fadd, m, o, PcAt(pc, o.maxInstructions), s', budget - 1);
      var rest := UncachedRun(fadd, m, o, PcAt(pc, o.maxInstructions), s', budget - 1);
      StopsBehindChunk(m, o, pc, rest.instructionsExecuted, rest.reason, budget);
    } else {
      StopsInFirst(fadd, m, o, pc, s, budget);
    }
  }

  lemma StopsInFirst(fadd: F32Add, m: MapValue, o: ControlFlowOptions, pc: U32, s: State, budget: nat)
    requires WellFormed(m) && BoundaryReason(UncachedRun(fadd, m, o, pc, s, budget).reason) && budget > 0
    requires !PlanAt(m, o, pc).PlanFailed?
    requires UncachedRun(fadd, m, o, pc, s, budget).instructionsExecuted < o.maxInstructions
    ensures var r := UncachedRun(fadd, m, o, pc, s, budget);
            StopsInChunk(m, o, pc, r.instructionsExecuted, r.reason, budget)
  {
    hide UncachedRun, StopsAfter, PlanAt, AnalyzeBlock, PcAt, WellFormed, RunnableRun, ChunkIndex, ChunkStart,
      StateAfter, FailsAt;
    RunIsDescribed(fadd, m, o, pc, s, budget);
    PlanAnalyzes(m, o, pc);
    FirstChunk(UncachedRun(fadd, m, o, pc, s, budget).instructionsExecuted, o.maxInstructions);
    PcStep(pc, 0);
  }

  // ---------------------------------------------------------------- analysis failures

  /** The chunk behind j full chunks is within the budget and does not analyze. */
  predicate Unanalyzable(m: MapValue, o: ControlFlowOptions, pc: U32, j: nat, budget: nat)
    requires WellFormed(m)
  {
    && j < budget && (j > 0 ==> o.maxInstructions > 0 && pc % 4 == 0)
    && RunnableRun(m, o.requireExecutable, pc, Room(j, o.maxInstructions))
    && AnalyzeBlock(m, PcAt(pc, Room(j, o.maxInstructions)), o).BlockFailed?
  }

  lemma UnanalyzableBehindChunk(m: MapValue, o: ControlFlowOptions, pc: U32, j: nat, budget: nat)
    requires WellFormed(m) && o.maxInstructions > 0 && pc % 4 == 0 && budget > 0
    requires RunnableRun(m, o.requireExecutable, pc, o.maxInstructions)
    ensures Unanalyzable(m, o, pc, j + 1, budget) <==>
            Unanalyzable(m, o, PcAt(pc, o.maxInstructions), j, budget - 1)
  {
    hide RunnableRun, AnalyzeBlock, WellFormed, PcAt, Room;
    var limit := o.maxInstructions;
    RoomStep(j + 1, limit);
    RunnableSplit(m, o.requireExecutable, pc, limit, Room(j, limit));
    PcAtAdd(pc, limit, Room(j, limit));
    PcAtAligned(pc, limit);
  }

  /** What a run reports that fails to analyze the chunk behind j full ones. */
  predicate UnanalyzedAt(r: Observable, pc: U32, j: nat, limit: nat) {
    && r.reason == AnalysisFailure && r.nextPc == PcAt(pc, Room(j, limit))
    && r.instructionsExecuted == Room(j, limit) && r.blocksExecuted == j
  }

  lemma UnanalyzedNow(pc: U32, limit: nat, s: State)
    ensures UnanalyzedAt(Stopped(AnalysisFailure, pc, s), pc, 0, limit)
  {
    hide PcAt;
    PcStep(pc, 0);
  }

  lemma UnanalyzedBehindChunk(r: Observable, pc: U32, j: nat, limit: nat)
    requires UnanalyzedAt(r, PcAt(pc, limit), j, limit)
    ensures UnanalyzedAt(AfterBlock(limit, r), pc, j + 1, limit)
  {
    hide PcAt, Room;
    RoomStep(j + 1, limit);
    PcAtAdd(pc, limit, Room(j, limit));
  }

  lemma FailedPlanIff(m: MapValue, o: ControlFlowOptions, pc: U32)
    requires WellFormed(m)
    ensures PlanAt(m, o, pc).PlanFailed? <==> AnalyzeBlock(m, PcAt(pc, Room(0, o.maxInstructions)), o).BlockFailed?
  {
    hide AnalyzeBlock, WellFormed, PcAt, PrefixLength;
    PcStep(pc, 0);
  }

  lemma {:induction false} RunFailsToAnalyze(fadd: F32Add, m: MapValue, o: ControlFlowOptions, pc: U32, s: State,
                                             j: nat, budget: nat)
    requires WellFormed(m) && Unanalyzable(m, o, pc, j, budget)
    ensures UnanalyzedAt(UncachedRun(fadd, m, o, pc, s, budget), pc, j, o.maxInstructions)
    decreases budget
  {
    hide RunnableRun, AnalyzeBlock, PlanAt, LowerAll, E.Execute, UnanalyzedAt, PcAt, WellFormed, Room;
    if j == 0 {
      FailedPlanIff(m, o, pc);
      UnanalyzedNow(pc, o.maxInstructions, s);
    } else {
      var limit := o.maxInstructions;
      RoomStep(j, limit);
      RunnableSplit(m, o.requireExecutable, pc, limit, Room(j - 1, limit));
      var s' := FullChunkStep(fadd, m, o, pc, s, budget);
      UnanalyzableBehindChunk(m, o, pc, j - 1, budget);
      RunFailsToAnalyze(fadd, m, o, PcAt(pc, limit), s', j - 1, budget - 1);
      UnanalyzedBehindChunk(UncachedRun(fadd, m, o, PcAt(pc, limit), s', budget - 1), pc, j - 1, limit);
    }
  }

  lemma {:induction false} AnalysisFailureIsAtChunk(fadd: F32Add, m: MapValue, o: ControlFlowOptions, pc: U32, s: State,
                                                    budget: nat)
    returns (j: nat)
    requires WellFormed(m) && UncachedRun(fadd, m, o, pc, s, budget).reason == AnalysisFailure
    ensures Unanalyzable(m, o, pc, j, budget)
    decreases budget
  {
    hide Unanalyzable, LowerAll, PlanAt, PcAt, WellFormed, E.Execute, RunnableRun;
    PlanReasons(m, o, pc);
    if PlanAt(m, o, pc).PlanFailed? {
      j := 0;
      UnanalyzableNow(m, o, pc, budget);
    } else {
      var s' := RunContinues(fadd, m, o, pc, s, budget);
      var rest := AnalysisFailureIsAtChunk(fadd, m, o, PcAt(pc, o.maxInstructions), s', budget - 1);
      UnanalyzableBehindChunk(m, o, pc, rest, budget);
      j := rest + 1;
    }
  }

  lemma UnanalyzableNow(m: MapValue, o: ControlFlowOptions, pc: U32, budget: nat)
    requires WellFormed(m) && PlanAt(m, o, pc).PlanFailed? && budget > 0
    ensures Unanalyzable(m, o, pc, 0, budget)
  {
    hide AnalyzeBlock, PlanAt, WellFormed, PcAt, Runnable;
    FailedPlanIff(m, o, pc);
  }

  // ---------------------------------------------------------------- every stop reason

  /** When a run stops for a given reason. No state and no cache occurs here. */
  ghost predicate StopCondition(m: MapValue, o: ControlFlowOptions, pc: U32, budget: nat, reason: StopReason)
    requires WellFormed(m)
  {
    match reason
    case InvalidBlockBudget => budget == 0
    case BlockBudgetExhausted => FullBudgetRuns(m, o, pc, budget)
    case LoweringFailure => FailsSomewhere(m, o, pc, budget)
    case AnalysisFailure => exists j: nat :: Unanalyzable(m, o, pc, j, budget)
    case CompileFailure => false
    case _ => exists n: nat :: StopsInChunk(m, o, pc, n, reason, budget)
  }

  /** The condition of a run's own reason holds. */
  lemma ReasonMeetsCondition(fadd: F32Add, m: MapValue, o: ControlFlowOptions, pc: U32, s: State, budget: nat)
    requires WellFormed(m)
    ensures StopCondition(m, o, pc, budget, UncachedRun(fadd, m, o, pc, s, budget).reason)
  {
    hide UncachedRun, FullBudgetRuns, Unanalyzable, StopsInChunk, FailsInChunk, WellFormed;
    var r := UncachedRun(fadd, m, o, pc, s, budget);
    match r.reason {
      case InvalidBlockBudget => BudgetZero(fadd, m, o, pc, s, budget);
      case CompileFailure => BudgetZero(fadd, m, o, pc, s, budget);
      case BlockBudgetExhausted => UncachedExhaustedIff(fadd, m, o, pc, s, budget);
      case LoweringFailure => var k := FailureIsInChunk(fadd, m, o, pc, s, budget);
      case AnalysisFailure => var j := AnalysisFailureIsAtChunk(fadd, m, o, pc, s, budget);
      case _ => StopIsInChunk(fadd, m, o, pc, s, budget);
    }
  }

  /** A budget of zero is the only invalid one, and nothing fails to compile. */
  lemma {:induction false} BudgetZero(fadd: F32Add, m: MapValue, o: ControlFlowOptions, pc: U32, s: State, budget: nat)
    requires WellFormed(m)
    ensures var r := UncachedRun(fadd, m, o, pc, s, budget);
            (r.reason == InvalidBlockBudget <==> budget == 0) && r.reason != CompileFailure
    decreases budget
  {
    hide PlanAt, LowerAll, PcAt, WellFormed, E.Execute;
    if budget > 0 {
      PlanReasons(m, o, pc);
      var plan := PlanAt(m, o, pc);
      if plan.PlanChunk? && LowerAll(plan.prefix).AllLowered? && budget > 1 {
        BudgetZero(fadd, m, o, PcAt(pc, |plan.prefix|), E.Execute(fadd, LowerAll(plan.prefix).irs, s).state,
                   budget - 1);
      }
    }
  }

  lemma ConditionDecides(fadd: F32Add, m: MapValue, o: ControlFlowOptions, pc: U32, s: State, budget: nat,
                         reason: StopReason)
    requires WellFormed(m) && StopCondition(m, o, pc, budget, reason)
    ensures UncachedRun(fadd, m, o, pc, s, budget).reason == reason
  {
    hide UncachedRun, FullBudgetRuns, Unanalyzable, StopsInChunk, FailsInChunk, WellFormed, PcAt, ChunkIndex,
      ChunkStart, Room;
    match reason {
      case InvalidBlockBudget => BudgetZero(fadd, m, o, pc, s, budget);
      case CompileFailure =>
      case BlockBudgetExhausted => UncachedExhaustedIff(fadd, m, o, pc, s, budget);
      case LoweringFailure =>
        var k: nat :| FailsInChunk(m, o, pc, k, budget);
        LimitPositive(m, o, pc, k, budget);
        RunFails(fadd, m, o, pc, s, k, budget);
      case AnalysisFailure =>
        var j: nat :| Unanalyzable(m, o, pc, j, budget);
        RunFailsToAnalyze(fadd, m, o, pc, s, j, budget);
      case _ =>
        var n: nat :| StopsInChunk(m, o, pc, n, reason, budget);
        RunStops(fadd, m, o, pc, s, n, reason, budget);
    }
  }

  lemma LimitPositive(m: MapValue, o: ControlFlowOptions, pc: U32, k: nat, budget: nat)
    requires WellFormed(m) && FailsInChunk(m, o, pc, k, budget)
    ensures o.maxInstructions > 0
  {
    hide RunnableRun, Unlowerable, AnalyzeBlock, WellFormed;
  }

  /** Each stop reason occurs exactly under its condition on memory, options, start PC
      and budget, whatever the state and the (valid) cache. */
  lemma StopReasonIff(fadd: F32Add, m: MapValue, o: ControlFlowOptions, cache: Cache, pc: U32, s: State, budget: nat,
                      reason: StopReason)
    requires WellFormed(m) && CacheValid(cache)
    ensures CachedRun(fadd, m, o, cache, pc, s, budget).result.reason == reason <==>
            StopCondition(m, o, pc, budget, reason)
  {
    hide CachedRun, UncachedRun, CacheValid, StopCondition, WellFormed;
    CacheRefinement(fadd, m, o, cache, pc, s, budget);
    ReasonMeetsCondition(fadd, m, o, pc, s, budget);
    if StopCondition(m, o, pc, budget, reason) {
      ConditionDecides(fadd, m, o, pc, s, budget, reason);
    }
  }

  /** The conditions are exhaustive and exclusive. */
  lemma ExactlyOneReason(m: MapValue, o: ControlFlowOptions, pc: U32, budget: nat)
    requires WellFormed(m)
    ensures exists reason :: StopCondition(m, o, pc, budget, reason) &&
                             forall other :: StopCondition(m, o, pc, budget, other) ==> other == reason
  {
    hide UncachedRun, StopCondition, WellFormed;
    var fadd: F32Add := (a, b) => a;
    var s := State(seq(32, _ => ZERO_GPR), 0, 0, 0, 0, 0, seq(32, _ => 0), 0, 0);
    var reason := UncachedRun(fadd, m, o, pc, s, budget).reason;
    ReasonMeetsCondition(fadd, m, o, pc, s, budget);
    forall other | StopCondition(m, o, pc, budget, other)
      ensures other == reason
    {
      ConditionDecides(fadd, m, o, pc, s, budget, other);
    }
  }

  /** A run that reaches a boundary at instruction n executes exactly the n
      instructions in front of it and names its PC. */
  lemma BoundaryReports(fadd: F32Add, m: MapValue, o: ControlFlowOptions, cache: Cache, pc: U32, s: State, n: nat,
                        reason: StopReason, budget: nat)
    requires WellFormed(m) && CacheValid(cache) && StopsInChunk(m, o, pc, n, reason, budget)
    ensures var d := CachedRun(fadd, m, o, cache, pc, s, budget).result;
            d.reason == reason && d.nextPc == PcAt(pc, n) && d.instructionsExecuted == n
  {
    hide CachedRun, UncachedRun, CacheValid, StopsInChunk, WellFormed, PcAt;
    CacheRefinement(fadd, m, o, cache, pc, s, budget);
    RunStops(fadd, m, o, pc, s, n, reason, budget);
  }

  /** A run whose chunk behind j full ones does not analyze executes exactly those
      and names the PC behind them. */
  lemma AnalysisFailureReports(fadd: F32Add, m: MapValue, o: ControlFlowOptions, cache: Cache, pc: U32, s: State,
                               j: nat, budget: nat)
    requires WellFormed(m) && CacheValid(cache) && Unanalyzable(m, o, pc, j, budget)
    ensures var d := CachedRun(fadd, m, o, cache, pc, s, budget).result;
            && d.reason == AnalysisFailure && d.nextPc == PcAt(pc, Room(j, o.maxInstructions))
            && d.instructionsExecuted == Room(j, o.maxInstructions) && d.blocksExecuted == j
  {
    hide CachedRun, UncachedRun, CacheValid, Unanalyzable, WellFormed, PcAt, Room;
    CacheRefinement(fadd, m, o, cache, pc, s, budget);
    RunFailsToAnalyze(fadd, m, o, pc, s, j, budget);
  }
}
