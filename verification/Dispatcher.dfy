/** The block dispatcher (src/recompiler/windows/r5900_block_dispatcher.cpp) as
    a function of guest memory, guest state and cache, and the cacheless
    dispatcher it must agree with. */
module Dispatcher {
  import opened Words
  import opened Options
  import opened GuestState
  import opened Ir
  import opened Validation
  import opened MemoryMap
  import opened ControlFlow
  import opened Fingerprint
  import D = Decoder
  import L = Lowering
  import E = Executor
  import B = X64Backend
  import C = X64Correctness

  datatype StopReason =
    | BlockBudgetExhausted
    | StopControlFlow
    | StopUnsupported
    | StopTrap
    | InvalidBlockBudget
    | AnalysisFailure
    | LoweringFailure
    | CompileFailure

  datatype DispatchResult = DispatchResult(
    reason: StopReason,
    nextPc: U32,
    blocksExecuted: nat,
    instructionsExecuted: nat,
    cacheHits: nat,
    cacheMisses: nat,
    recompilations: nat)

  /** is_dispatcher_v0_eligible. */
  predicate Eligible(i: D.Instruction) {
    i in {D.Nop, D.Addu, D.Addiu, D.Ori, D.Andi, D.Lui, D.Mthi, D.Mtlo, D.Mthi1, D.Mtlo1, D.Mtsah, D.Padduw,
          D.Mtc1, D.Ctc1, D.AddaS, D.Sync}
  }

  /** Why the dispatcher stops in front of an instruction, if it does. */
  function BoundaryOf(d: D.Decoded): Option<StopReason> {
    if d.IsBranch() || d.IsJump() then Some(StopControlFlow)
    else if d.instructionClass == D.System then Some(StopTrap)
    else if !Eligible(d.instruction) then Some(StopUnsupported)
    else None
  }

  // ---------------------------------------------------------------- choosing a chunk

  /** The number of leading instructions that can run. */
  function PrefixLength(sites: seq<Site>): (n: nat)
    ensures n <= |sites|
    ensures forall k :: 0 <= k < n ==> BoundaryOf(sites[k].decoded).None?
    ensures n < |sites| ==> BoundaryOf(sites[n].decoded).Some?
  {
    if |sites| == 0 || BoundaryOf(sites[0].decoded).Some? then 0 else 1 + PrefixLength(sites[1..])
  }

  datatype Boundary = Boundary(reason: StopReason, pc: U32)

  datatype Plan =
    | PlanFailed
    | PlanStop(at: Boundary)
    | PlanChunk(prefix: seq<Site>, boundary: Option<Boundary>)

  /** What to do at pc, from guest memory alone. */
  function PlanAt(m: MapValue, options: ControlFlowOptions, pc: U32): Plan
    requires WellFormed(m)
  {
    var analyzed := AnalyzeBlock(m, pc, options);
    if analyzed.BlockFailed? then PlanFailed
    else PlanOf(analyzed.block.instructions, pc)
  }

  function PlanOf(sites: seq<Site>, pc: U32): Plan {
    var n := PrefixLength(sites);
    var boundary := if n < |sites| then Some(Boundary(BoundaryOf(sites[n].decoded).value, sites[n].pc)) else None;
    if n > 0 then PlanChunk(sites[..n], boundary)
    else if boundary.Some? then PlanStop(boundary.value)
    else PlanStop(Boundary(StopUnsupported, pc))
  }

  /** Lowering a whole prefix; the first instruction that does not lower decides. */
  datatype LowerResult = AllLowered(irs: seq<IrInstruction>) | LowerFailedAt(pc: U32)

  function LowerAll(sites: seq<Site>): LowerResult {
    if |sites| == 0 then AllLowered([])
    else
      var first := L.Lower(sites[0].decoded, sites[0].pc);
      if first.UnsupportedInstruction? then LowerFailedAt(sites[0].pc)
      else
        var rest := LowerAll(sites[1..]);
        if rest.LowerFailedAt? then rest else AllLowered(first.instructions + rest.irs)
  }

  // ---------------------------------------------------------------- the cacheless dispatcher

  /** The part of a result that does not mention the cache, and the final state. */
  datatype Observable = Observable(
    reason: StopReason,
    nextPc: U32,
    blocksExecuted: nat,
    instructionsExecuted: nat,
    state: State)

  function Stopped(reason: StopReason, pc: U32, s: State): Observable { Observable(reason, pc, 0, 0, s) }

  /** One executed block of n instructions in front of the rest of a run. */
  function AfterBlock(n: nat, rest: Observable): Observable {
    rest.(blocksExecuted := rest.blocksExecuted + 1, instructionsExecuted := rest.instructionsExecuted + n)
  }

  /** Decode, lower and execute current memory block by block with the reference
      executor: no cache, no native code. */
  function UncachedRun(fadd: F32Add, m: MapValue, options: ControlFlowOptions, pc: U32, s: State, budget: nat)
    : Observable
    requires WellFormed(m)
    decreases budget
  {
    if budget == 0 then Stopped(InvalidBlockBudget, pc, s) else
    var plan := PlanAt(m, options, pc);
    if plan.PlanFailed? then Stopped(AnalysisFailure, pc, s)
    else if plan.PlanStop? then Stopped(plan.at.reason, plan.at.pc, s)
    else
      var lowered := LowerAll(plan.prefix);
      if lowered.LowerFailedAt? then Stopped(LoweringFailure, lowered.pc, s)
      else
        var s' := E.Execute(fadd, lowered.irs, s).state;
        var next := PcAt(pc, |plan.prefix|);
        AfterBlock(|plan.prefix|,
                   if plan.boundary.Some? then Stopped(plan.boundary.value.reason, plan.boundary.value.pc, s')
                   else if budget == 1 then Stopped(BlockBudgetExhausted, next, s')
                   else UncachedRun(fadd, m, options, next, s', budget - 1))
  }

  // ---------------------------------------------------------------- the cache

  datatype CachedBlock = CachedBlock(
    startPc: U32,
    endPcExclusive: U32,
    fingerprint: U64,
    guestWords: seq<U32>,
    guestInstructionCount: nat,
    native: seq<U8>)

  type Cache = map<U32, CachedBlock>

  function WordsOf(sites: seq<Site>): (words: seq<U32>)
    ensures |words| == |sites|
  {
    seq(|sites|, k requires 0 <= k < |sites| => sites[k].decoded.raw)
  }

  predicate ExactHit(cache: Cache, pc: U32, words: seq<U32>) {
    && pc in cache
    && cache[pc].startPc == pc
    && cache[pc].guestInstructionCount == |words|
    && cache[pc].fingerprint == FingerprintOf(pc, words)
    && cache[pc].guestWords == words
  }

  datatype Lookup = Hit | Miss | Stale

  datatype Prepared =
    | Ready(lookup: Lookup, native: seq<U8>, cache: Cache)
    | NotReady(lookup: Lookup, reason: StopReason, pc: U32)

  function NewEntry(pc: U32, words: seq<U32>, native: seq<U8>): CachedBlock {
    CachedBlock(pc, PcAt(pc, |words|), FingerprintOf(pc, words), words, |words|, native)
  }

  /** Reuse the cached block on an exact match; otherwise lower, compile and
      install. A failure leaves the cache as it was. */
  function Prepare(cache: Cache, pc: U32, prefix: seq<Site>): Prepared {
    var words := WordsOf(prefix);
    if ExactHit(cache, pc, words) then Ready(Hit, cache[pc].native, cache)
    else
      var lookup := if pc in cache then Stale else Miss;
      var lowered := LowerAll(prefix);
      if lowered.LowerFailedAt? then NotReady(lookup, LoweringFailure, lowered.pc)
      else
        var compiled := B.Compile(lowered.irs);
        if compiled.CompileFailed? then NotReady(lookup, CompileFailure, pc)
        else Ready(lookup, compiled.native, cache[pc := NewEntry(pc, words, compiled.native)])
  }

  datatype RunResult = RunResult(result: DispatchResult, state: State, cache: Cache)

  function Ends(reason: StopReason, pc: U32, s: State, cache: Cache): RunResult {
    RunResult(DispatchResult(reason, pc, 0, 0, 0, 0, 0), s, cache)
  }

  function Counted(lookup: Lookup, r: RunResult): RunResult {
    var d := r.result;
    r.(result := match lookup
                 case Hit => d.(cacheHits := d.cacheHits + 1)
                 case Miss => d.(cacheMisses := d.cacheMisses + 1)
                 case Stale => d.(recompilations := d.recompilations + 1))
  }

  function Executed(n: nat, r: RunResult): RunResult {
    var d := r.result;
    r.(result := d.(blocksExecuted := d.blocksExecuted + 1, instructionsExecuted := d.instructionsExecuted + n))
  }

  /** R5900BlockDispatcher::run. */
  function CachedRun(fadd: F32Add, m: MapValue, options: ControlFlowOptions, cache: Cache, pc: U32, s: State,
                     budget: nat)
    : RunResult
    requires WellFormed(m)
    decreases budget
  {
    if budget == 0 then Ends(InvalidBlockBudget, pc, s, cache) else
    var plan := PlanAt(m, options, pc);
    if plan.PlanFailed? then Ends(AnalysisFailure, pc, s, cache)
    else if plan.PlanStop? then Ends(plan.at.reason, plan.at.pc, s, cache)
    else
      var p := Prepare(cache, pc, plan.prefix);
      if p.NotReady? then Counted(p.lookup, Ends(p.reason, p.pc, s, cache))
      else
        var s' := C.NativeExecute(fadd, p.native, s);
        var next := PcAt(pc, |plan.prefix|);
        Counted(p.lookup, Executed(|plan.prefix|,
          if plan.boundary.Some? then Ends(plan.boundary.value.reason, plan.boundary.value.pc, s', p.cache)
          else if budget == 1 then Ends(BlockBudgetExhausted, next, s', p.cache)
          else CachedRun(fadd, m, options, p.cache, next, s', budget - 1)))
  }

  // ---------------------------------------------------------------- the cache invariant

  /** The sites of consecutive words from pc. */
  function SitesOf(pc: U32, words: seq<U32>): (sites: seq<Site>)
    ensures |sites| == |words|
  {
    seq(|words|, k requires 0 <= k < |words| => Site(PcAt(pc, k), D.Decode(words[k])))
  }

  /** An entry's native block is the compilation of its own words at its own PC. */
  predicate EntryValid(pc: U32, entry: CachedBlock) {
    && entry.startPc == pc
    && entry.guestInstructionCount == |entry.guestWords|
    && entry.endPcExclusive == PcAt(pc, |entry.guestWords|)
    && entry.fingerprint == FingerprintOf(pc, entry.guestWords)
    && var lowered := LowerAll(SitesOf(pc, entry.guestWords));
       lowered.AllLowered? && B.Compile(lowered.irs) == B.Compiled(entry.native)
  }

  predicate CacheValid(cache: Cache) {
    forall pc | pc in cache :: EntryValid(pc, cache[pc])
  }

  function ObservableOf(r: RunResult): Observable {
    Observable(r.result.reason, r.result.nextPc, r.result.blocksExecuted, r.result.instructionsExecuted, r.state)
  }

  /** A chunk is the decoding of the words now in memory at consecutive PCs. */
  lemma PrefixIsCurrentMemory(m: MapValue, options: ControlFlowOptions, pc: U32)
    requires WellFormed(m) && PlanAt(m, options, pc).PlanChunk?
    ensures var prefix := PlanAt(m, options, pc).prefix;
            && 0 < |prefix| <= options.maxInstructions
            && prefix == SitesOf(pc, WordsOf(prefix))
            && forall k :: 0 <= k < |prefix| ==>
                 FetchSite(m, PcAt(pc, k), options.requireExecutable) == Some(prefix[k]) &&
                 ReadU32At(m, PcAt(pc, k)) == Some(prefix[k].decoded.raw) && BoundaryOf(prefix[k].decoded).None?
  {
    hide Scan, FetchSite, D.Decode, WellFormed, ReadU32At, PcAt, BoundaryOf;
    var prefix := PlanAt(m, options, pc).prefix;
    ScanLength(m, options.requireExecutable, pc, options.maxInstructions);
    forall k | 0 <= k < |prefix|
      ensures FetchSite(m, PcAt(pc, k), options.requireExecutable) == Some(prefix[k])
      ensures ReadU32At(m, PcAt(pc, k)) == Some(prefix[k].decoded.raw)
      ensures prefix[k] == SitesOf(pc, WordsOf(prefix))[k]
    {
      ScanSites(m, options.requireExecutable, pc, options.maxInstructions, k);
      FetchedSite(m, PcAt(pc, k), options.requireExecutable);
    }
  }

  /** Where lowering succeeds, compiling does: a compile failure cannot occur. */
  lemma {:induction false} LoweredCompiles(pc: U32, words: seq<U32>)
    requires LowerAll(SitesOf(pc, words)).AllLowered?
    ensures B.Compile(LowerAll(SitesOf(pc, words)).irs).Compiled?
  {
    hide D.Decode;
    forall k | 0 <= k < |words|
      ensures L.RegisterFields(SitesOf(pc, words)[k].decoded)
    {
      DecodedFields(words[k]);
    }
    LoweredAreWellShaped(SitesOf(pc, words));
    B.NoFirstErrorIsWellShaped(LowerAll(SitesOf(pc, words)).irs);
  }

  lemma DecodedFields(word: U32)
    ensures L.RegisterFields(D.Decode(word))
  {
    hide D.Classify;
  }

  lemma {:induction false} LoweredAreWellShaped(sites: seq<Site>)
    requires LowerAll(sites).AllLowered? && forall site | site in sites :: L.RegisterFields(site.decoded)
    ensures B.AllWellShaped(LowerAll(sites).irs) && |LowerAll(sites).irs| == |sites|
  {
    hide L.Lower, WellShaped, L.RegisterFields;
    if |sites| > 0 {
      assert sites[0] in sites;
      L.LoweredIsOneValidInstruction(sites[0].decoded, sites[0].pc);
      ValidIffWellShaped(L.Lower(sites[0].decoded, sites[0].pc).instructions[0]);
      LoweredAreWellShaped(sites[1..]);
    }
  }

  /** Preparing a chunk against a valid cache gives native code with the effect of
      the reference executor on the current words, and keeps the cache valid. It
      fails only in lowering, exactly when lowering the chunk fails. */
  lemma PrepareCorrect(fadd: F32Add, m: MapValue, options: ControlFlowOptions, cache: Cache, pc: U32, s: State)
    requires WellFormed(m) && PlanAt(m, options, pc).PlanChunk? && CacheValid(cache)
    ensures var prefix := PlanAt(m, options, pc).prefix;
            var p, lowered := Prepare(cache, pc, prefix), LowerAll(prefix);
            && (p.NotReady? <==> lowered.LowerFailedAt?)
            && (p.NotReady? ==> p.reason == LoweringFailure && p.pc == lowered.pc)
            && (p.Ready? ==> CacheValid(p.cache) &&
                             C.NativeExecute(fadd, p.native, s) == E.Execute(fadd, lowered.irs, s).state)
  {
    hide D.Decode, LowerAll, B.Compile, C.NativeExecute, E.Execute, FetchSite, PlanAt, WellFormed, PcAt, BoundaryOf;
    var prefix := PlanAt(m, options, pc).prefix;
    var words := WordsOf(prefix);
    PrefixIsCurrentMemory(m, options, pc);
    var lowered := LowerAll(prefix);
    if lowered.AllLowered? {
      LoweredCompiles(pc, words);
      C.NativeExecuteIsExecute(fadd, lowered.irs, s);
    }
  }

  /** Cache refinement: with a valid cache, a run observes exactly what the
      cacheless dispatcher observes, and leaves the cache valid. */
  lemma {:induction false} CacheRefinement(fadd: F32Add, m: MapValue, options: ControlFlowOptions, cache: Cache,
                                           pc: U32, s: State, budget: nat)
    requires WellFormed(m) && CacheValid(cache)
    ensures var r := CachedRun(fadd, m, options, cache, pc, s, budget);
            ObservableOf(r) == UncachedRun(fadd, m, options, pc, s, budget) && CacheValid(r.cache)
    decreases budget
  {
    hide PlanAt, Prepare, LowerAll, C.NativeExecute, E.Execute, WellFormed, CacheValid, PcAt;
    if budget > 0 && PlanAt(m, options, pc).PlanChunk? {
      PrepareCorrect(fadd, m, options, cache, pc, s);
      var prefix := PlanAt(m, options, pc).prefix;
      var p := Prepare(cache, pc, prefix);
      if p.Ready? && budget > 1 {
        CacheRefinement(fadd, m, options, p.cache, PcAt(pc, |prefix|), C.NativeExecute(fadd, p.native, s), budget - 1);
      }
    }
  }
}
