/** Properties of whole dispatcher runs: accounting, budget composition, the next
    PC, independence of the chunk size, and sessions of runs, guest-memory writes
    and cache clears (src/recompiler/windows/r5900_block_dispatcher.cpp). */
module DispatcherRuns {
  import opened Words
  import opened Options
  import opened GuestState
  import opened Ir
  import opened MemoryMap
  import opened ControlFlow
  import opened Dispatcher
  import opened Fingerprint
  import D = Decoder
  import L = Lowering
  import E = Executor
  import B = X64Backend
  import C = X64Correctness
  import Validation

  // ---------------------------------------------------------------- accounting

  function Lookups(d: DispatchResult): nat { d.cacheHits + d.cacheMisses + d.recompilations }

  /** One lookup per executed block, and one more when the run ended in a chunk
      that does not lower; an exhausted budget is used up; compiling never fails. */
  predicate Accounted(d: DispatchResult, budget: nat) {
    && Lookups(d) == d.blocksExecuted + (if d.reason == LoweringFailure then 1 else 0)
    && d.blocksExecuted <= budget
    && (d.reason == BlockBudgetExhausted ==> d.blocksExecuted == budget > 0)
    && d.reason != CompileFailure
  }

  /** Every executed block is counted as exactly one hit, miss or recompilation;
      a chunk that fails to lower adds one lookup without a block. */
  lemma {:induction false} LookupsCountBlocks(fadd: F32Add, m: MapValue, options: ControlFlowOptions, cache: Cache,
                                              pc: U32, s: State, budget: nat)
    requires WellFormed(m) && CacheValid(cache)
    ensures Accounted(CachedRun(fadd, m, options, cache, pc, s, budget).result, budget)
    decreases budget
  {
    hide PlanAt, Prepare, LowerAll, C.NativeExecute, E.Execute, WellFormed, CacheValid, PcAt;
    if budget > 0 {
      PlanReasons(m, options, pc);
      if PlanAt(m, options, pc).PlanChunk? {
        PrepareCorrect(fadd, m, options, cache, pc, s);
        var prefix := PlanAt(m, options, pc).prefix;
        var p := Prepare(cache, pc, prefix);
        if p.Ready? && budget > 1 {
          LookupsCountBlocks(fadd, m, options, p.cache, PcAt(pc, |prefix|), C.NativeExecute(fadd, p.native, s),
                             budget - 1);
        }
      }
    }
  }

  /** The cache grows by one entry per miss and never shrinks in a run; a miss that
      ends in a failure to lower or compile leaves no entry. */
  lemma {:induction false} CacheGrowsByMisses(fadd: F32Add, m: MapValue, options: ControlFlowOptions, cache: Cache,
                                              pc: U32, s: State, budget: nat)
    requires WellFormed(m)
    ensures var r := CachedRun(fadd, m, options, cache, pc, s, budget);
            && |cache| <= |r.cache| <= |cache| + r.result.cacheMisses <= |r.cache| + 1
            && (r.result.reason !in {LoweringFailure, CompileFailure} ==> |r.cache| == |cache| + r.result.cacheMisses)
            && cache.Keys <= r.cache.Keys
    decreases budget
  {
    hide PlanAt, Prepare, LowerAll, C.NativeExecute, WellFormed, PcAt;
    if budget > 0 {
      PlanReasons(m, options, pc);
      if PlanAt(m, options, pc).PlanChunk? {
        var prefix := PlanAt(m, options, pc).prefix;
        var p := Prepare(cache, pc, prefix);
        PrepareGrowth(cache, pc, prefix);
        PrepareReasons(cache, pc, prefix);
        if p.Ready? && budget > 1 {
          CacheGrowsByMisses(fadd, m, options, p.cache, PcAt(pc, |prefix|), C.NativeExecute(fadd, p.native, s),
                             budget - 1);
        }
      }
    }
  }

  lemma PrepareGrowth(cache: Cache, pc: U32, prefix: seq<Site>)
    ensures var p := Prepare(cache, pc, prefix);
            p.Ready? ==>
              |p.cache| == |cache| + (if p.lookup == Miss then 1 else 0) && cache.Keys <= p.cache.Keys && pc in p.cache
  {
    hide LowerAll, B.Compile, FingerprintOf, PcAt;
    var p := Prepare(cache, pc, prefix);
    if p.Ready? && pc !in cache {
      assert p.cache.Keys == cache.Keys + {pc};
    } else if p.Ready? {
      assert p.cache.Keys == cache.Keys;
    }
  }

  predicate BoundaryReason(r: StopReason) { r in {StopControlFlow, StopTrap, StopUnsupported} }

  lemma PlanReasons(m: MapValue, options: ControlFlowOptions, pc: U32)
    requires WellFormed(m)
    ensures var plan := PlanAt(m, options, pc);
            && (plan.PlanStop? ==> BoundaryReason(plan.at.reason))
            && (plan.PlanChunk? && plan.boundary.Some? ==> BoundaryReason(plan.boundary.value.reason))
  {
    hide AnalyzeBlock, WellFormed;
  }

  // ---------------------------------------------------------------- budget composition

  function AddCounts(first: DispatchResult, rest: DispatchResult): DispatchResult {
    DispatchResult(rest.reason, rest.nextPc,
                   first.blocksExecuted + rest.blocksExecuted,
                   first.instructionsExecuted + rest.instructionsExecuted,
                   first.cacheHits + rest.cacheHits,
                   first.cacheMisses + rest.cacheMisses,
                   first.recompilations + rest.recompilations)
  }

  /** The chunk at pc runs and nothing stops the run behind it. */
  predicate Continues(m: MapValue, options: ControlFlowOptions, cache: Cache, pc: U32)
    requires WellFormed(m)
  {
    var plan := PlanAt(m, options, pc);
    plan.PlanChunk? && plan.boundary.None? && Prepare(cache, pc, plan.prefix).Ready?
  }

  /** One step of a run. Unless the run continues behind the chunk, its budget
      does not matter. */
  lemma RunStep(fadd: F32Add, m: MapValue, options: ControlFlowOptions, cache: Cache, pc: U32, s: State, budget: nat,
                other: nat)
    requires WellFormed(m) && budget > 0 && other > 0
    ensures var r := CachedRun(fadd, m, options, cache, pc, s, budget);
            if Continues(m, options, cache, pc) then
              var plan := PlanAt(m, options, pc);
              var p := Prepare(cache, pc, plan.prefix);
              var next, s' := PcAt(pc, |plan.prefix|), C.NativeExecute(fadd, p.native, s);
              r == Counted(p.lookup, Executed(|plan.prefix|,
                     if budget == 1 then Ends(BlockBudgetExhausted, next, s', p.cache)
                     else CachedRun(fadd, m, options, p.cache, next, s', budget - 1)))
            else r.result.reason != BlockBudgetExhausted && r == CachedRun(fadd, m, options, cache, pc, s, other)
  {
    hide PlanAt, Prepare, C.NativeExecute, WellFormed, PcAt;
    PlanReasons(m, options, pc);
    if PlanAt(m, options, pc).PlanChunk? {
      PrepareReasons(cache, pc, PlanAt(m, options, pc).prefix);
    }
  }

  lemma CountsAssociate(lookup: Lookup, n: nat, first: RunResult, rest: RunResult)
    ensures var sum := RunResult(AddCounts(first.result, rest.result), rest.state, rest.cache);
            Counted(lookup, Executed(n, sum)).result ==
            AddCounts(Counted(lookup, Executed(n, first)).result, rest.result)
  {
  }

  /** Running with budget a + b is running with budget a and, if that exhausted its
      budget, running on from where it stopped with budget b: same reason, PC,
      state and cache, and every counter adds. */
  lemma {:induction false} BudgetComposition(fadd: F32Add, m: MapValue, options: ControlFlowOptions, cache: Cache,
                                             pc: U32, s: State, a: nat, b: nat)
    requires WellFormed(m) && a > 0 && b > 0
    ensures var first := CachedRun(fadd, m, options, cache, pc, s, a);
            CachedRun(fadd, m, options, cache, pc, s, a + b) ==
            if first.result.reason != BlockBudgetExhausted then first
            else
              var rest := CachedRun(fadd, m, options, first.cache, first.result.nextPc, first.state, b);
              RunResult(AddCounts(first.result, rest.result), rest.state, rest.cache)
    decreases a
  {
    hide CachedRun, PlanAt, Prepare, C.NativeExecute, WellFormed, PcAt, Continues;
    RunStep(fadd, m, options, cache, pc, s, a, a + b);
    RunStep(fadd, m, options, cache, pc, s, a + b, a);
    if Continues(m, options, cache, pc) {
      ContinuesMeans(m, options, cache, pc);
      var plan := PlanAt(m, options, pc);
      var p := Prepare(cache, pc, plan.prefix);
      var next, s' := PcAt(pc, |plan.prefix|), C.NativeExecute(fadd, p.native, s);
      var first := if a == 1 then Ends(BlockBudgetExhausted, next, s', p.cache)
                   else CachedRun(fadd, m, options, p.cache, next, s', a - 1);
      var rest := CachedRun(fadd, m, options, first.cache, first.result.nextPc, first.state, b);
      CountsAssociate(p.lookup, |plan.prefix|, first, rest);
      if a > 1 {
        BudgetComposition(fadd, m, options, p.cache, next, s', a - 1, b);
      }
    }
  }

  lemma ContinuesMeans(m: MapValue, options: ControlFlowOptions, cache: Cache, pc: U32)
    requires WellFormed(m) && Continues(m, options, cache, pc)
    ensures PlanAt(m, options, pc).PlanChunk? && Prepare(cache, pc, PlanAt(m, options, pc).prefix).Ready?
  {
  }

  lemma PrepareReasons(cache: Cache, pc: U32, prefix: seq<Site>)
    ensures var p := Prepare(cache, pc, prefix);
            p.NotReady? ==> p.reason == LoweringFailure || p.reason == CompileFailure
  {
    hide LowerAll, B.Compile;
  }

  // ---------------------------------------------------------------- the straight-line run from a PC

  /** The instruction at pc can run: it is fetched, no boundary, and lowers. */
  predicate Runnable(m: MapValue, requireExecutable: bool, pc: U32)
    requires WellFormed(m)
  {
    var site := FetchSite(m, pc, requireExecutable);
    site.Some? && BoundaryOf(site.value.decoded).None? && L.Lower(site.value.decoded, pc).Lowered?
  }

  predicate RunnableRun(m: MapValue, requireExecutable: bool, pc: U32, n: nat)
    requires WellFormed(m)
  {
    forall k :: 0 <= k < n ==> Runnable(m, requireExecutable, PcAt(pc, k))
  }

  /** The IR of n runnable instructions from pc. */
  function RunIr(m: MapValue, requireExecutable: bool, pc: U32, n: nat): seq<IrInstruction>
    requires WellFormed(m) && RunnableRun(m, requireExecutable, pc, n)
  {
    if n == 0 then []
    else
      var at := PcAt(pc, n - 1);
      assert Runnable(m, requireExecutable, at);
      RunIr(m, requireExecutable, pc, n - 1) +
      L.Lower(FetchSite(m, at, requireExecutable).value.decoded, at).instructions
  }

  /** n runnable instructions from pc, then a boundary. */
  predicate StopsAfter(m: MapValue, requireExecutable: bool, pc: U32, n: nat, reason: StopReason)
    requires WellFormed(m)
  {
    && RunnableRun(m, requireExecutable, pc, n)
    && var site := FetchSite(m, PcAt(pc, n), requireExecutable);
       site.Some? && BoundaryOf(site.value.decoded) == Some(reason)
  }

  /** The state after n instructions: untouched when nothing ran. */
  function StateAfter(fadd: F32Add, m: MapValue, requireExecutable: bool, pc: U32, n: nat, s: State): State
    requires WellFormed(m) && RunnableRun(m, requireExecutable, pc, n)
  {
    if n == 0 then s else E.Execute(fadd, RunIr(m, requireExecutable, pc, n), s).state
  }

  lemma PcAtAdd(pc: U32, a: nat, b: nat)
    ensures PcAt(PcAt(pc, a), b) == PcAt(pc, a + b)
  {
    var q, r := (pc + 4 * a) / 0x1_0000_0000, PcAt(pc, a);
    var q2, r2 := (r + 4 * b) / 0x1_0000_0000, PcAt(r, b);
    assert pc + 4 * a == q * 0x1_0000_0000 + r && r + 4 * b == q2 * 0x1_0000_0000 + r2;
    RemainderUnique(pc + 4 * (a + b), 0x1_0000_0000, q + q2, r2);
  }

  lemma BoundaryNotRunnable(m: MapValue, requireExecutable: bool, pc: U32, n: nat, reason: StopReason)
    requires WellFormed(m) && StopsAfter(m, requireExecutable, pc, n, reason)
    ensures !Runnable(m, requireExecutable, PcAt(pc, n))
  {
    hide FetchSite, BoundaryOf, WellFormed, PcAt, L.Lower;
  }

  /** Where the run stops is determined by memory and PC alone. */
  lemma StopIsUnique(m: MapValue, requireExecutable: bool, pc: U32, n: nat, reason: StopReason, n': nat,
                     reason': StopReason)
    requires WellFormed(m)
    requires StopsAfter(m, requireExecutable, pc, n, reason) && StopsAfter(m, requireExecutable, pc, n', reason')
    ensures n == n' && reason == reason'
  {
    hide FetchSite, BoundaryOf, WellFormed, PcAt, Runnable;
    BoundaryNotRunnable(m, requireExecutable, pc, n, reason);
    BoundaryNotRunnable(m, requireExecutable, pc, n', reason');
  }

  lemma RunnableLowersToOne(m: MapValue, requireExecutable: bool, pc: U32)
    requires WellFormed(m) && Runnable(m, requireExecutable, pc)
    ensures var irs := L.Lower(FetchSite(m, pc, requireExecutable).value.decoded, pc).instructions;
            |irs| == 1 && Validation.WellShaped(irs[0])
  {
    hide FetchSite, WellFormed, L.Lower, BoundaryOf, D.Decode, Validation.WellShaped;
    var site := FetchSite(m, pc, requireExecutable).value;
    FetchedSite(m, pc, requireExecutable);
    DecodedFields(site.decoded.raw);
    L.LoweredIsOneValidInstruction(site.decoded, pc);
    Validation.ValidIffWellShaped(L.Lower(site.decoded, pc).instructions[0]);
  }

  lemma {:induction false} RunIrValid(m: MapValue, requireExecutable: bool, pc: U32, n: nat)
    requires WellFormed(m) && RunnableRun(m, requireExecutable, pc, n)
    ensures B.AllWellShaped(RunIr(m, requireExecutable, pc, n))
  {
    hide Runnable, FetchSite, WellFormed, PcAt, L.Lower, Validation.WellShaped;
    if n > 0 {
      RunIrValid(m, requireExecutable, pc, n - 1);
      RunnableLowersToOne(m, requireExecutable, PcAt(pc, n - 1));
    }
  }

  lemma {:induction false} RunIrConcat(m: MapValue, requireExecutable: bool, pc: U32, a: nat, b: nat)
    requires WellFormed(m) && RunnableRun(m, requireExecutable, pc, a) &&
             RunnableRun(m, requireExecutable, PcAt(pc, a), b)
    ensures RunnableRun(m, requireExecutable, pc, a + b)
    ensures RunIr(m, requireExecutable, pc, a + b) ==
            RunIr(m, requireExecutable, pc, a) + RunIr(m, requireExecutable, PcAt(pc, a), b)
    decreases b
  {
    hide Runnable, FetchSite, WellFormed, PcAt, L.Lower;
    forall k | 0 <= k < a + b
      ensures Runnable(m, requireExecutable, PcAt(pc, k))
    {
      if k >= a {
        PcAtAdd(pc, a, k - a);
      }
    }
    if b > 0 {
      RunIrConcat(m, requireExecutable, pc, a, b - 1);
      PcAtAdd(pc, a, b - 1);
    }
  }

  /** Executing a + b instructions is executing a, then b: the GPR0 normalisation
      in between is absorbed. */
  lemma StateAfterAdd(fadd: F32Add, m: MapValue, requireExecutable: bool, pc: U32, a: nat, b: nat, s: State)
    requires WellFormed(m) && RunnableRun(m, requireExecutable, pc, a) &&
             RunnableRun(m, requireExecutable, PcAt(pc, a), b)
    ensures RunnableRun(m, requireExecutable, pc, a + b)
    ensures StateAfter(fadd, m, requireExecutable, pc, a + b, s) ==
            StateAfter(fadd, m, requireExecutable, PcAt(pc, a), b, StateAfter(fadd, m, requireExecutable, pc, a, s))
  {
    hide RunnableRun, RunIr, WellFormed, PcAt, E.Execute;
    RunIrConcat(m, requireExecutable, pc, a, b);
    if a == 0 {
      PcAtAdd(pc, 0, 0);
      PcStep(pc, 0);
    } else if b > 0 {
      NoErrorOnRunIr(fadd, m, requireExecutable, pc, a, s);
      E.ExecuteConcat(fadd, RunIr(m, requireExecutable, pc, a), RunIr(m, requireExecutable, PcAt(pc, a), b), s);
    }
  }

  lemma NoErrorOnRunIr(fadd: F32Add, m: MapValue, requireExecutable: bool, pc: U32, n: nat, s: State)
    requires WellFormed(m) && RunnableRun(m, requireExecutable, pc, n)
    ensures E.Execute(fadd, RunIr(m, requireExecutable, pc, n), s).error == E.NoError
  {
    hide RunnableRun, RunIr, WellFormed, E.ExecuteFrom;
    RunIrValid(m, requireExecutable, pc, n);
    B.NoFirstErrorIsWellShaped(RunIr(m, requireExecutable, pc, n));
    E.ExecuteReportsFirstError(fadd, RunIr(m, requireExecutable, pc, n), E.NormalizeZero(s));
  }

  lemma RunnableIffLowers(m: MapValue, requireExecutable: bool, pc: U32, site: Site)
    requires WellFormed(m) && FetchSite(m, pc, requireExecutable) == Some(site) && BoundaryOf(site.decoded).None?
    ensures site.pc == pc
    ensures Runnable(m, requireExecutable, pc) <==> L.Lower(site.decoded, pc).Lowered?
  {
    hide BoundaryOf, WellFormed, L.Lower, D.Decode;
  }

  /** A chunk that lowers is a runnable run, with its IR; one that does not lower
      is runnable up to the first instruction that does not. */
  lemma {:induction false} LoweredChunk(m: MapValue, requireExecutable: bool, pc: U32, sites: seq<Site>)
    requires WellFormed(m)
    requires forall k :: 0 <= k < |sites| ==>
               FetchSite(m, PcAt(pc, k), requireExecutable) == Some(sites[k]) && BoundaryOf(sites[k].decoded).None?
    ensures var lowered := LowerAll(sites);
            if lowered.AllLowered? then
              RunnableRun(m, requireExecutable, pc, |sites|) && lowered.irs == RunIr(m, requireExecutable, pc, |sites|)
            else
              exists j :: 0 <= j < |sites| && lowered.pc == PcAt(pc, j) && RunnableRun(m, requireExecutable, pc, j) &&
                          !Runnable(m, requireExecutable, PcAt(pc, j))
    decreases |sites|
  {
    hide Runnable, FetchSite, WellFormed, PcAt, L.Lower, BoundaryOf;
    if |sites| > 0 {
      var last := |sites| - 1;
      LoweredChunk(m, requireExecutable, pc, sites[..last]);
      LowerAllSnoc(sites[..last], sites[last]);
      assert sites == sites[..last] + [sites[last]];
      RunnableIffLowers(m, requireExecutable, PcAt(pc, last), sites[last]);
    }
  }

  lemma {:induction false} LowerAllSnoc(sites: seq<Site>, site: Site)
    ensures LowerAll(sites + [site]) ==
            var before, last := LowerAll(sites), L.Lower(site.decoded, site.pc);
            if before.LowerFailedAt? then before
            else if last.UnsupportedInstruction? then LowerFailedAt(site.pc)
            else AllLowered(before.irs + last.instructions)
    decreases |sites|
  {
    hide L.Lower;
    if |sites| == 0 {
      assert [site][1..] == [];
      assert sites + [site] == [site];
    } else {
      assert (sites + [site])[1..] == sites[1..] + [site];
      LowerAllSnoc(sites[1..], site);
    }
  }

  // ---------------------------------------------------------------- the shape of every run

  /** A plan to stop names the boundary at pc itself. */
  lemma PlanStopMeans(m: MapValue, options: ControlFlowOptions, pc: U32)
    requires WellFormed(m) && PlanAt(m, options, pc).PlanStop?
    ensures var at := PlanAt(m, options, pc).at;
            at.pc == PcAt(pc, 0) == pc && StopsAfter(m, options.requireExecutable, pc, 0, at.reason)
  {
    hide Scan, FetchSite, D.Decode, WellFormed, PcAt, BoundaryOf, Runnable;
    ScanLength(m, options.requireExecutable, pc, options.maxInstructions);
    ScanSites(m, options.requireExecutable, pc, options.maxInstructions, 0);
    FetchedSite(m, PcAt(pc, 0), options.requireExecutable);
    PcStep(pc, 0);
  }

  /** The boundary behind a chunk is the next instruction. */
  lemma PlanBoundaryMeans(m: MapValue, options: ControlFlowOptions, pc: U32)
    requires WellFormed(m) && PlanAt(m, options, pc).PlanChunk? && PlanAt(m, options, pc).boundary.Some?
    ensures var plan := PlanAt(m, options, pc);
            var site := FetchSite(m, PcAt(pc, |plan.prefix|), options.requireExecutable);
            && plan.boundary.value.pc == PcAt(pc, |plan.prefix|)
            && site.Some? && BoundaryOf(site.value.decoded) == Some(plan.boundary.value.reason)
  {
    hide Scan, FetchSite, D.Decode, WellFormed, PcAt, BoundaryOf;
    var n := |PlanAt(m, options, pc).prefix|;
    ScanSites(m, options.requireExecutable, pc, options.maxInstructions, n);
    FetchedSite(m, PcAt(pc, n), options.requireExecutable);
  }

  /** An instruction the dispatcher takes into a chunk although it does not lower. */
  predicate Unlowerable(m: MapValue, requireExecutable: bool, pc: U32)
    requires WellFormed(m)
  {
    var site := FetchSite(m, pc, requireExecutable);
    site.Some? && BoundaryOf(site.value.decoded).None? && !Runnable(m, requireExecutable, pc)
  }

  /** The instruction that failed to lower: behind the n executed ones and
      possibly more runnable ones. */
  ghost predicate FailsAt(m: MapValue, requireExecutable: bool, pc: U32, n: nat, failPc: U32)
    requires WellFormed(m)
  {
    Unlowerable(m, requireExecutable, failPc) &&
    exists k: nat :: n <= k && failPc == PcAt(pc, k) && RunnableRun(m, requireExecutable, pc, k)
  }

  /** What every run of the cacheless dispatcher did: r describes n runnable
      instructions from pc and the reason to stop behind them. */
  ghost predicate Describes(fadd: F32Add, m: MapValue, requireExecutable: bool, pc: U32, s: State, r: Observable)
    requires WellFormed(m)
  {
    var n := r.instructionsExecuted;
    && RunnableRun(m, requireExecutable, pc, n)
    && r.state == StateAfter(fadd, m, requireExecutable, pc, n, s)
    && (BoundaryReason(r.reason) ==> StopsAfter(m, requireExecutable, pc, n, r.reason))
    && (r.reason != LoweringFailure ==> r.nextPc == PcAt(pc, n))
    && (r.reason == LoweringFailure ==> FailsAt(m, requireExecutable, pc, n, r.nextPc))
  }

  /** Putting n executed instructions in front of a described run. */
  lemma DescribesAfterBlock(fadd: F32Add, m: MapValue, requireExecutable: bool, pc: U32, n: nat, s: State,
                            rest: Observable)
    requires WellFormed(m) && RunnableRun(m, requireExecutable, pc, n)
    requires Describes(fadd, m, requireExecutable, PcAt(pc, n), StateAfter(fadd, m, requireExecutable, pc, n, s), rest)
    ensures Describes(fadd, m, requireExecutable, pc, s, AfterBlock(n, rest))
  {
    hide RunnableRun, Runnable, Unlowerable, FetchSite, WellFormed, PcAt, BoundaryOf, StateAfter;
    var k := rest.instructionsExecuted;
    RunIrConcat(m, requireExecutable, pc, n, k);
    StateAfterAdd(fadd, m, requireExecutable, pc, n, k, s);
    PcAtAdd(pc, n, k);
    if rest.reason == LoweringFailure {
      var j: nat :| k <= j && rest.nextPc == PcAt(PcAt(pc, n), j) && RunnableRun(m, requireExecutable, PcAt(pc, n), j);
      RunIrConcat(m, requireExecutable, pc, n, j);
      PcAtAdd(pc, n, j);
      assert rest.nextPc == PcAt(pc, n + j);
    }
  }

  lemma DescribesNothing(fadd: F32Add, m: MapValue, requireExecutable: bool, pc: U32, s: State, reason: StopReason,
                         at: U32)
    requires WellFormed(m)
    requires BoundaryReason(reason) ==> StopsAfter(m, requireExecutable, pc, 0, reason)
    requires if reason == LoweringFailure then FailsAt(m, requireExecutable, pc, 0, at) else at == pc
    ensures Describes(fadd, m, requireExecutable, pc, s, Stopped(reason, at, s))
  {
    hide Runnable, Unlowerable, FetchSite, WellFormed, BoundaryOf;
    PcStep(pc, 0);
  }

  /** Executing a chunk that lowers, or failing to lower it. */
  lemma ChunkOutcome(fadd: F32Add, m: MapValue, options: ControlFlowOptions, pc: U32, s: State)
    requires WellFormed(m) && PlanAt(m, options, pc).PlanChunk?
    ensures var req, prefix := options.requireExecutable, PlanAt(m, options, pc).prefix;
            var lowered := LowerAll(prefix);
            if lowered.LowerFailedAt? then FailsAt(m, req, pc, 0, lowered.pc)
            else
              RunnableRun(m, req, pc, |prefix|) &&
              E.Execute(fadd, lowered.irs, s).state == StateAfter(fadd, m, req, pc, |prefix|, s)
  {
    hide PlanAt, LowerAll, E.Execute, WellFormed, PcAt, FailsAt, RunnableRun, RunIr, FetchSite, BoundaryOf;
    var prefix := PlanAt(m, options, pc).prefix;
    PrefixIsCurrentMemory(m, options, pc);
    LoweredChunk(m, options.requireExecutable, pc, prefix);
    if LowerAll(prefix).LowerFailedAt? {
      ChunkFails(m, options.requireExecutable, pc, prefix);
    }
  }

  lemma {:induction false} RunIsDescribed(fadd: F32Add, m: MapValue, options: ControlFlowOptions, pc: U32, s: State,
                                          budget: nat)
    requires WellFormed(m)
    ensures Describes(fadd, m, options.requireExecutable, pc, s, UncachedRun(fadd, m, options, pc, s, budget))
    decreases budget, 1
  {
    hide Describes, StopsAfter, PlanAt, LowerAll, E.Execute, WellFormed, FailsAt;
    var req, plan := options.requireExecutable, PlanAt(m, options, pc);
    if budget == 0 {
      DescribesNothing(fadd, m, req, pc, s, InvalidBlockBudget, pc);
    } else if plan.PlanFailed? {
      DescribesNothing(fadd, m, req, pc, s, AnalysisFailure, pc);
    } else if plan.PlanStop? {
      PlanReasons(m, options, pc);
      PlanStopMeans(m, options, pc);
      DescribesNothing(fadd, m, req, pc, s, plan.at.reason, pc);
    } else {
      ChunkOutcome(fadd, m, options, pc, s);
      if LowerAll(plan.prefix).LowerFailedAt? {
        DescribesNothing(fadd, m, req, pc, s, LoweringFailure, LowerAll(plan.prefix).pc);
      } else {
        var rest := BehindChunk(fadd, m, options, pc, s, budget);
        DescribesAfterBlock(fadd, m, req, pc, |plan.prefix|, s, rest);
      }
    }
  }

  /** The run behind an executed chunk is described. */
  lemma {:induction false} BehindChunk(fadd: F32Add, m: MapValue, options: ControlFlowOptions, pc: U32, s: State,
                                       budget: nat)
    returns (rest: Observable)
    requires WellFormed(m) && budget > 0 && PlanAt(m, options, pc).PlanChunk?
    requires LowerAll(PlanAt(m, options, pc).prefix).AllLowered?
    ensures var n := |PlanAt(m, options, pc).prefix|;
            && UncachedRun(fadd, m, options, pc, s, budget) == AfterBlock(n, rest)
            && RunnableRun(m, options.requireExecutable, pc, n)
            && Describes(fadd, m, options.requireExecutable, PcAt(pc, n),
                         StateAfter(fadd, m, options.requireExecutable, pc, n, s), rest)
    decreases budget, 0
  {
    hide Describes, PlanAt, LowerAll, E.Execute, WellFormed, PcAt, StopsAfter, RunnableRun, StateAfter, FetchSite,
      BoundaryOf;
    var req, plan := options.requireExecutable, PlanAt(m, options, pc);
    ChunkOutcome(fadd, m, options, pc, s);
    var s', next := E.Execute(fadd, LowerAll(plan.prefix).irs, s).state, PcAt(pc, |plan.prefix|);
    if plan.boundary.Some? {
      var reason := plan.boundary.value.reason;
      PlanReasons(m, options, pc);
      PlanBoundaryMeans(m, options, pc);
      StopsHere(m, req, next, reason);
      rest := Stopped(reason, next, s');
      DescribesNothing(fadd, m, req, next, s', reason, next);
    } else if budget == 1 {
      rest := Stopped(BlockBudgetExhausted, next, s');
      DescribesNothing(fadd, m, req, next, s', BlockBudgetExhausted, next);
    } else {
      rest := UncachedRun(fadd, m, options, next, s', budget - 1);
      RunIsDescribed(fadd, m, options, next, s', budget - 1);
    }
  }

  lemma StopsHere(m: MapValue, requireExecutable: bool, pc: U32, reason: StopReason)
    requires WellFormed(m) && FetchSite(m, pc, requireExecutable).Some?
    requires BoundaryOf(FetchSite(m, pc, requireExecutable).value.decoded) == Some(reason)
    ensures StopsAfter(m, requireExecutable, pc, 0, reason)
  {
    hide WellFormed, FetchSite, BoundaryOf;
    PcStep(pc, 0);
  }

  lemma ChunkFails(m: MapValue, requireExecutable: bool, pc: U32, sites: seq<Site>)
    requires WellFormed(m) && LowerAll(sites).LowerFailedAt?
    requires forall k :: 0 <= k < |sites| ==>
               FetchSite(m, PcAt(pc, k), requireExecutable) == Some(sites[k]) && BoundaryOf(sites[k].decoded).None?
    ensures FailsAt(m, requireExecutable, pc, 0, LowerAll(sites).pc)
  {
    hide Runnable, FetchSite, WellFormed, PcAt, BoundaryOf, LowerAll;
    LoweredChunk(m, requireExecutable, pc, sites);
    var j :| 0 <= j < |sites| && LowerAll(sites).pc == PcAt(pc, j) && RunnableRun(m, requireExecutable, pc, j) &&
             !Runnable(m, requireExecutable, PcAt(pc, j));
  }

  // ---------------------------------------------------------------- consequences

  /** For every stop reason except a lowering failure, the next PC is the start PC
      plus four per executed instruction, modulo 2^32. On a lowering failure it is
      the PC of the instruction that did not lower, which is that same PC exactly
      when the instruction there is itself not runnable. */
  lemma NextPcByReason(fadd: F32Add, m: MapValue, options: ControlFlowOptions, cache: Cache, pc: U32, s: State,
                       budget: nat)
    requires WellFormed(m) && CacheValid(cache)
    ensures var d := CachedRun(fadd, m, options, cache, pc, s, budget).result;
            var expected := ToU32(pc + 4 * d.instructionsExecuted);
            if d.reason != LoweringFailure then d.nextPc == expected
            else d.nextPc == expected <==> !Runnable(m, options.requireExecutable, expected)
  {
    hide Runnable, FetchSite, WellFormed, CachedRun, UncachedRun, CacheValid, StateAfter, ToU32;
    CacheRefinement(fadd, m, options, cache, pc, s, budget);
    RunIsDescribed(fadd, m, options, pc, s, budget);
    var r := UncachedRun(fadd, m, options, pc, s, budget);
    var n := r.instructionsExecuted;
    if r.reason == LoweringFailure && !Runnable(m, options.requireExecutable, PcAt(pc, n)) {
      var k: nat :| n <= k && r.nextPc == PcAt(pc, k) && RunnableRun(m, options.requireExecutable, pc, k);
    }
  }

  /** What is taken into a chunk lowers, except a control move to a register other
      than 31. */
  lemma EligibleLowers(d: D.Decoded, pc: U32)
    requires BoundaryOf(d).None?
    ensures L.Lower(d, pc).Lowered? <==> !(d.instruction == D.Ctc1 && d.rd != 31)
  {
  }

  /** A run ends in a lowering failure only at a CTC1 to a control register other
      than 31. */
  lemma LoweringFailureIsControlMove(fadd: F32Add, m: MapValue, options: ControlFlowOptions, cache: Cache, pc: U32,
                                     s: State, budget: nat)
    requires WellFormed(m) && CacheValid(cache)
    ensures var d := CachedRun(fadd, m, options, cache, pc, s, budget).result;
            d.reason == LoweringFailure ==>
              var site := FetchSite(m, d.nextPc, options.requireExecutable);
              site.Some? && site.value.decoded.instruction == D.Ctc1 && site.value.decoded.rd != 31
  {
    hide FetchSite, WellFormed, CachedRun, UncachedRun, CacheValid, StateAfter, PcAt, L.Lower, BoundaryOf, StopsAfter,
      RunnableRun;
    CacheRefinement(fadd, m, options, cache, pc, s, budget);
    RunIsDescribed(fadd, m, options, pc, s, budget);
    var r := UncachedRun(fadd, m, options, pc, s, budget);
    if r.reason == LoweringFailure {
      var site := FetchSite(m, r.nextPc, options.requireExecutable).value;
      RunnableIffLowers(m, options.requireExecutable, r.nextPc, site);
      EligibleLowers(site.decoded, r.nextPc);
    }
  }

  /** Chunk-size independence: two runs from the same PC, state and memory, with
      any instruction limits, budgets and valid caches, that both stop at control
      flow, a trap or an unsupported instruction, agree on reason, next PC,
      instructions executed and final state. */
  lemma ChunkSizeIndependence(fadd: F32Add, m: MapValue, pc: U32, s: State, requireExecutable: bool,
                              limit: U64, cache: Cache, budget: nat, limit': U64, cache': Cache, budget': nat)
    requires WellFormed(m) && CacheValid(cache) && CacheValid(cache')
    ensures var r := CachedRun(fadd, m, ControlFlowOptions(limit, requireExecutable), cache, pc, s, budget);
            var r' := CachedRun(fadd, m, ControlFlowOptions(limit', requireExecutable), cache', pc, s, budget');
            BoundaryReason(r.result.reason) && BoundaryReason(r'.result.reason) ==>
              && r.result.reason == r'.result.reason && r.result.nextPc == r'.result.nextPc
              && r.result.instructionsExecuted == r'.result.instructionsExecuted && r.state == r'.state
  {
    hide StopsAfter, RunnableRun, WellFormed, CachedRun, UncachedRun, CacheValid, StateAfter, PcAt, FailsAt;
    var options, options' := ControlFlowOptions(limit, requireExecutable),
      ControlFlowOptions(limit', requireExecutable);
    CacheRefinement(fadd, m, options, cache, pc, s, budget);
    CacheRefinement(fadd, m, options', cache', pc, s, budget');
    RunIsDescribed(fadd, m, options, pc, s, budget);
    RunIsDescribed(fadd, m, options', pc, s, budget');
    var r, r' := UncachedRun(fadd, m, options, pc, s, budget), UncachedRun(fadd, m, options', pc, s, budget');
    if BoundaryReason(r.reason) && BoundaryReason(r'.reason) {
      StopIsUnique(m, requireExecutable, pc, r.instructionsExecuted, r.reason, r'.instructionsExecuted, r'.reason);
    }
  }

  // ---------------------------------------------------------------- sessions

  /** What a caller does with a dispatcher: run from some state, write guest
      memory, clear the cache. */
  datatype Action =
    | RunAction(pc: U32, state: State, budget: nat)
    | WriteAction(address: U32, data: seq<U8>)
    | ClearAction

  /** The observations of the runs of a session. */
  function CachedSession(fadd: F32Add, options: ControlFlowOptions, m: MapValue, cache: Cache, actions: seq<Action>)
    : seq<Observable>
    requires WellFormed(m)
    decreases |actions|
  {
    if |actions| == 0 then []
    else match actions[0]
      case RunAction(pc, s, budget) =>
        var r := CachedRun(fadd, m, options, cache, pc, s, budget);
        [ObservableOf(r)] + CachedSession(fadd, options, m, r.cache, actions[1..])
      case WriteAction(address, data) =>
        CachedSession(fadd, options, WriteBytes(m, address, data), cache, actions[1..])
      case ClearAction => CachedSession(fadd, options, m, map[], actions[1..])
  }

  function UncachedSession(fadd: F32Add, options: ControlFlowOptions, m: MapValue, actions: seq<Action>)
    : seq<Observable>
    requires WellFormed(m)
    decreases |actions|
  {
    if |actions| == 0 then []
    else match actions[0]
      case RunAction(pc, s, budget) =>
        [UncachedRun(fadd, m, options, pc, s, budget)] + UncachedSession(fadd, options, m, actions[1..])
      case WriteAction(address, data) =>
        UncachedSession(fadd, options, WriteBytes(m, address, data), actions[1..])
      case ClearAction => UncachedSession(fadd, options, m, actions[1..])
  }

  /** Over every interleaving of runs, guest-memory writes and cache clears, the
      runs of a dispatcher observe what the cacheless dispatcher observes. */
  lemma {:induction false} SessionRefinement(fadd: F32Add, options: ControlFlowOptions, m: MapValue, cache: Cache,
                                             actions: seq<Action>)
    requires WellFormed(m) && CacheValid(cache)
    ensures CachedSession(fadd, options, m, cache, actions) == UncachedSession(fadd, options, m, actions)
    decreases |actions|
  {
    hide EntryValid, WellFormed, CachedRun, UncachedRun, WriteBytes;
    if |actions| > 0 {
      match actions[0] {
        case RunAction(pc, s, budget) =>
          CacheRefinement(fadd, m, options, cache, pc, s, budget);
          SessionRefinement(fadd, options, m, CachedRun(fadd, m, options, cache, pc, s, budget).cache, actions[1..]);
        case WriteAction(address, data) =>
          SessionRefinement(fadd, options, WriteBytes(m, address, data), cache, actions[1..]);
        case ClearAction =>
          SessionRefinement(fadd, options, m, map[], actions[1..]);
      }
    }
  }

  // ---------------------------------------------------------------- a lowering failure reports no progress

  /** NOP; CTC1 r0, FCR0: the second is eligible but does not lower. */
  const NOP_CTC1: MapValue := [Mapped(Region(0, 8, 1), [0, 0, 0, 0, 0, 0, 0xC0, 0x44])]

  lemma NopCtc1Sites()
    ensures WellFormed(NOP_CTC1)
    ensures FetchSite(NOP_CTC1, 0, true) == Some(Site(0, D.Decode(0)))
    ensures FetchSite(NOP_CTC1, 4, true) == Some(Site(4, D.Decode(0x44C0_0000)))
  {
    hide D.Decode;
    var bytes := NOP_CTC1[0].bytes;
    assert BitAnd(1, 1) == 1;
    StatusAgreesWithTranslate(NOP_CTC1, 0, 4);
    StatusAgreesWithTranslate(NOP_CTC1, 4, 4);
    assert bytes[0..4] == [0, 0, 0, 0] && bytes[4..8] == [0, 0, 0xC0, 0x44];
    OrOfFourValue(0, 0);
    OrOfFourValue(0xC0, 0x44);
  }

  lemma OrOfFourValue(b2: U8, b3: U8)
    ensures LeValue([0, 0, b2, b3]) == 0x1_0000 * b2 + 0x100_0000 * b3
  {
    LeValueConcat([0, 0], [b2, b3]);
    assert [0, 0] + [b2, b3] == [0, 0, b2, b3];
    LeValueOfTwo(0, 0);
    LeValueOfTwo(b2, b3);
    Pow2Values();
  }

  lemma NopDecoded()
    ensures D.Decode(0).instruction == D.Nop && D.Decode(0).instructionClass == D.Alu
  {
  }

  lemma Ctc1Classified(raw: U32, rt: U8, sa: U8, funct: U8)
    ensures D.Classify(raw, 0x11, 6, rt, sa, funct) == D.SetInstruction(D.Ctc1, D.Alu, D.NoWidth)
  {
  }

  lemma Ctc1Decoded()
    ensures var d := D.Decode(0x44C0_0000); d.instruction == D.Ctc1 && d.instructionClass == D.Alu && d.rd == 0
  {
    hide D.Classify;
    var raw := 0x44C0_0000;
    assert D.Primary(raw) == 0x11 && D.Rs(raw) == 6 && D.Rd(raw) == 0;
    Ctc1Classified(raw, D.Rt(raw), D.Sa(raw), D.Funct(raw));
  }

  lemma NopCtc1Lowering(nop: Site, ctc: Site)
    requires nop == Site(0, D.Decode(0)) && ctc == Site(4, D.Decode(0x44C0_0000))
    ensures Straight(nop.decoded) && Straight(ctc.decoded)
    ensures PrefixLength([nop, ctc]) == 2 && LowerAll([nop, ctc]) == LowerFailedAt(4)
  {
    hide D.Decode;
    NopDecoded();
    Ctc1Decoded();
    assert [nop, ctc][1..] == [ctc] && [ctc][1..] == [];
    assert PrefixLength([ctc]) == 1;
    assert LowerAll([ctc]) == LowerFailedAt(4);
  }

  /** Two straight-line sites at 0 and 4 scan to a block at the limit. */
  lemma TwoSiteScan(m: MapValue, first: Site, second: Site)
    requires WellFormed(m) && Straight(first.decoded) && Straight(second.decoded)
    requires FetchSite(m, 0, true) == Some(first) && FetchSite(m, 4, true) == Some(second)
    ensures Scan(m, true, 0, 2) == Scanned([first, second], LimitEnding(8))
  {
    hide FetchSite, WellFormed, Scan, Straight, ToU32;
    ToU32Small(4);
    ToU32Small(8);
    ScanStep(m, true, 0, 2, 2);
    ScanStep(m, true, 4, 1, 1);
    ScanNothing(m, true, 8);
    assert [first] + ([second] + []) == [first, second];
  }

  /** The plan for a scan of exactly these two sites. */
  lemma NopCtc1Plan(m: MapValue, nop: Site, ctc: Site)
    requires nop == Site(0, D.Decode(0)) && ctc == Site(4, D.Decode(0x44C0_0000))
    requires WellFormed(m) && Scan(m, true, 0, 2) == Scanned([nop, ctc], LimitEnding(8))
    ensures PlanAt(m, ControlFlowOptions(2, true), 0) == PlanChunk([nop, ctc], None)
  {
    hide FetchSite, D.Decode, WellFormed, Scan, Straight, LowerAll, PrefixLength, ToU32, BoundaryOf;
    NopCtc1Lowering(nop, ctc);
    assert [nop, ctc][..2] == [nop, ctc];
  }

  lemma ToU32Small(n: nat)
    requires n < 0x1_0000_0000
    ensures ToU32(n) == n
  {
  }

  /** The progress law fails for lowering failures: here the run reports the PC of
      its second instruction although nothing was executed. */
  lemma LoweringFailureSkipsAhead(fadd: F32Add, s: State)
    ensures WellFormed(NOP_CTC1) && CacheValid(map[])
    ensures var d := CachedRun(fadd, NOP_CTC1, ControlFlowOptions(2, true), map[], 0, s, 1).result;
            d.reason == LoweringFailure && d.nextPc == 4 && d.instructionsExecuted == 0
  {
    hide PlanAt, LowerAll, FingerprintOf, B.Compile, WellFormed, C.NativeExecute, Scan, D.Decode, FetchSite, Straight;
    var nop, ctc := Site(0, D.Decode(0)), Site(4, D.Decode(0x44C0_0000));
    NopCtc1Sites();
    NopCtc1Lowering(nop, ctc);
    TwoSiteScan(NOP_CTC1, nop, ctc);
    NopCtc1Plan(NOP_CTC1, nop, ctc);
  }
}
