/** The dispatcher object: a cache of native blocks over a guest memory map it does
    not own (src/recompiler/windows/r5900_block_dispatcher.h). */
module DispatcherObject {
  import opened Words
  import opened Options
  import opened GuestState
  import opened MemoryMap
  import opened MemoryMapObject
  import opened ControlFlow
  import opened Fingerprint
  import opened Dispatcher
  import opened DispatcherRuns
  import D = Decoder
  import L = Lowering
  import B = X64Backend
  import C = X64Correctness

  /** Calling a native block on the caller's state. */
  method ExecuteNative(fadd: F32Add, native: seq<U8>, guest: Guest)
    requires guest.Valid()
    modifies guest.Repr
    ensures guest.Snapshot() == C.NativeExecute(fadd, native, old(guest.Snapshot()))
  {
    var after := C.NativeExecute(fadd, native, guest.Snapshot());
    guest.Assign(after);
  }

  class R5900BlockDispatcher {
    const memory: Ps2MemoryMap
    const options: ControlFlowOptions
    var cache: Cache

    /** The cache invariant. Guest memory may change freely: no entry mentions it. */
    ghost predicate Valid()
      reads this
    {
      CacheValid(cache)
    }

    /** The dispatcher, its memory map and a caller's state are separate objects. */
    ghost predicate Separate(guest: Guest)
      reads this, memory
    {
      && this !in memory.Repr && this !in guest.Repr && memory !in guest.Repr
      && memory.Repr !! guest.Repr
    }

    constructor (memory: Ps2MemoryMap, options: ControlFlowOptions)
      ensures Valid() && this.memory == memory && this.options == options && cache == map[]
    {
      this.memory := memory;
      this.options := options;
      cache := map[];
    }

    method ClearCache()
      modifies this
      ensures Valid() && cache == map[]
    {
      cache := map[];
    }

    method CacheSize() returns (n: nat)
      ensures n == |cache|
    {
      n := |cache|;
    }

    /** The leading instructions of the block at pc that can run, and what stops
        them. */
    method ChoosePlan(pc: U32) returns (plan: Plan)
      requires memory.Valid()
      ensures plan == PlanAt(memory.Value(), options, pc)
    {
      hide AnalyzeBlock, WellFormed, BoundaryOf;
      var analyzed := AnalyzeR5900BasicBlock(memory, pc, options);
      if analyzed.BlockFailed? {
        return PlanFailed;
      }
      var sites := analyzed.block.instructions;
      var prefix := [];
      for i := 0 to |sites|
        invariant prefix == sites[..i] && PrefixLength(sites) == i + PrefixLength(sites[i..])
      {
        assert sites[i..][1..] == sites[i + 1..];
        var reason := BoundaryOf(sites[i].decoded);
        if reason.Some? {
          var boundary := Boundary(reason.value, sites[i].pc);
          return if i == 0 then PlanStop(boundary) else PlanChunk(prefix, Some(boundary));
        }
        prefix := prefix + [sites[i]];
      }
      plan := if |prefix| == 0 then PlanStop(Boundary(StopUnsupported, pc)) else PlanChunk(prefix, None);
    }

    /** Re-reads the words of a chunk; they are still there. */
    method ReadWords(pc: U32, prefix: seq<Site>) returns (words: seq<U32>)
      requires memory.Valid()
      requires PlanAt(memory.Value(), options, pc).PlanChunk? && PlanAt(memory.Value(), options, pc).prefix == prefix
      ensures words == WordsOf(prefix)
    {
      hide PlanAt, WellFormed, FetchSite, ReadU32At, PcAt, BoundaryOf, D.Decode;
      PrefixIsCurrentMemory(memory.Value(), options, pc);
      words := [];
      for i := 0 to |prefix|
        invariant words == WordsOf(prefix)[..i]
      {
        assert prefix[i] == SitesOf(pc, WordsOf(prefix))[i];
        var word := memory.ReadU32(prefix[i].pc);
        if word.None? {
          assert false;
        }
        words := words + [word.value];
      }
    }

    /** Lowers a chunk instruction by instruction. */
    method LowerPrefix(prefix: seq<Site>) returns (r: LowerResult)
      ensures r == LowerAll(prefix)
    {
      hide L.Lower;
      var irs := [];
      for i := 0 to |prefix|
        invariant LowerAll(prefix) ==
                  var rest := LowerAll(prefix[i..]); if rest.LowerFailedAt? then rest else AllLowered(irs + rest.irs)
      {
        assert prefix[i..][1..] == prefix[i + 1..];
        var lowered := L.Lower(prefix[i].decoded, prefix[i].pc);
        if lowered.UnsupportedInstruction? {
          return LowerFailedAt(prefix[i].pc);
        }
        irs := irs + lowered.instructions;
      }
      r := AllLowered(irs);
    }

    /** The native block for a chunk: the cached one on an exact match, else a new
        one, which replaces any stale entry. */
    method PrepareBlock(pc: U32, prefix: seq<Site>, words: seq<U32>) returns (p: Prepared)
      requires words == WordsOf(prefix)
      modifies this`cache
      ensures p == Prepare(old(cache), pc, prefix)
      ensures cache == if p.Ready? then p.cache else old(cache)
    {
      hide LowerAll, B.Compile, FingerprintOf, PcAt;
      var fingerprint := FingerprintGuestWords(pc, words);
      var exactHit := pc in cache && cache[pc].startPc == pc && cache[pc].guestInstructionCount == |words| &&
                      cache[pc].fingerprint == fingerprint && cache[pc].guestWords == words;
      if exactHit {
        return Ready(Hit, cache[pc].native, cache);
      }
      var lookup := if pc in cache then Stale else Miss;
      var lowered := LowerPrefix(prefix);
      if lowered.LowerFailedAt? {
        return NotReady(lookup, LoweringFailure, lowered.pc);
      }
      var compiled := B.CompileR5900IrX64(lowered.irs);
      if compiled.CompileFailed? {
        return NotReady(lookup, CompileFailure, pc);
      }
      var replacement := CachedBlock(pc, PcAt(pc, |prefix|), fingerprint, words, |words|, compiled.native);
      cache := cache[pc := replacement];
      p := Ready(lookup, compiled.native, cache);
    }

    /** run. The result, the caller's state and the cache are those of CachedRun,
        so what it observes is what the cacheless dispatcher observes. */
    method Run(fadd: F32Add, startPc: U32, guest: Guest, maxBlocks: U64) returns (result: DispatchResult)
      requires Valid() && memory.Valid() && guest.Valid() && Separate(guest)
      modifies this`cache, guest.Repr
      ensures Valid()
      ensures memory.Valid() && memory.Value() == old(memory.Value())
      ensures RunResult(result, guest.Snapshot(), cache) ==
              CachedRun(fadd, memory.Value(), options, old(cache), startPc, old(guest.Snapshot()), maxBlocks)
      ensures Observable(result.reason, result.nextPc, result.blocksExecuted, result.instructionsExecuted,
                         guest.Snapshot()) ==
              UncachedRun(fadd, memory.Value(), options, startPc, old(guest.Snapshot()), maxBlocks)
    {
      hide PlanAt, Prepare, C.NativeExecute, WellFormed, CacheValid, UncachedRun, PcAt, Accumulated, Counted, Executed;
      ghost var m, s0, cache0 := memory.Value(), guest.Snapshot(), cache;
      CacheRefinement(fadd, m, options, cache, startPc, s0, maxBlocks);
      result := DispatchResult(InvalidBlockBudget, startPc, 0, 0, 0, 0, 0);
      if maxBlocks == 0 {
        return;
      }
      var pc := startPc;
      AccumulateNothing(result, CachedRun(fadd, m, options, cache, pc, s0, maxBlocks));
      while result.blocksExecuted < maxBlocks
        invariant result.blocksExecuted < maxBlocks
        invariant Separate(guest) && memory.Valid() && memory.Value() == m && guest.Valid()
        invariant CachedRun(fadd, m, options, cache0, startPc, s0, maxBlocks) ==
                  Accumulated(result, CachedRun(fadd, m, options, cache, pc, guest.Snapshot(),
                                                maxBlocks - result.blocksExecuted))
        decreases maxBlocks - result.blocksExecuted
      {
        ghost var s := guest.Snapshot();
        var plan := ChoosePlan(pc);
        if plan.PlanFailed? {
          AccumulateEnds(result, AnalysisFailure, pc, s, cache);
          result := result.(reason := AnalysisFailure, nextPc := pc);
          return;
        }
        if plan.PlanStop? {
          AccumulateEnds(result, plan.at.reason, plan.at.pc, s, cache);
          result := result.(reason := plan.at.reason, nextPc := plan.at.pc);
          return;
        }
        var words := ReadWords(pc, plan.prefix);
        var p := PrepareBlock(pc, plan.prefix, words);
        if p.NotReady? {
          AccumulateCounted(result, p.lookup, Ends(p.reason, p.pc, s, cache));
          result := CountLookup(result, p.lookup);
          AccumulateEnds(result, p.reason, p.pc, s, cache);
          result := result.(reason := p.reason, nextPc := p.pc);
          return;
        }
        ExecuteNative(fadd, p.native, guest);
        ghost var n, next := |plan.prefix|, PcAt(pc, |plan.prefix|);
        ghost var s', left := guest.Snapshot(), maxBlocks - result.blocksExecuted;
        ghost var rest :=
          if plan.boundary.Some? then Ends(plan.boundary.value.reason, plan.boundary.value.pc, s', cache)
          else if left == 1 then Ends(BlockBudgetExhausted, next, s', cache)
          else CachedRun(fadd, m, options, cache, next, s', left - 1);
        AccumulateCounted(result, p.lookup, Executed(n, rest));
        result := CountLookup(result, p.lookup);
        AccumulateExecuted(result, n, rest);
        result := result.(blocksExecuted := result.blocksExecuted + 1,
                          instructionsExecuted := result.instructionsExecuted + |plan.prefix|);
        pc := PcAt(pc, |plan.prefix|);
        if plan.boundary.Some? {
          AccumulateEnds(result, plan.boundary.value.reason, plan.boundary.value.pc, guest.Snapshot(), cache);
          result := result.(reason := plan.boundary.value.reason, nextPc := plan.boundary.value.pc);
          return;
        }
        if result.blocksExecuted == maxBlocks {
          AccumulateEnds(result, BlockBudgetExhausted, pc, guest.Snapshot(), cache);
          result := result.(reason := BlockBudgetExhausted, nextPc := pc);
          return;
        }
      }
    }
  }

  // ---------------------------------------------------------------- running totals

  function CountLookup(d: DispatchResult, lookup: Lookup): DispatchResult {
    match lookup
    case Hit => d.(cacheHits := d.cacheHits + 1)
    case Miss => d.(cacheMisses := d.cacheMisses + 1)
    case Stale => d.(recompilations := d.recompilations + 1)
  }

  /** A run whose first blocks are already accounted for in acc. */
  function Accumulated(acc: DispatchResult, rest: RunResult): RunResult {
    RunResult(AddCounts(acc, rest.result), rest.state, rest.cache)
  }

  lemma AccumulateNothing(acc: DispatchResult, r: RunResult)
    requires acc == DispatchResult(acc.reason, acc.nextPc, 0, 0, 0, 0, 0)
    ensures Accumulated(acc, r) == r
  {
  }

  lemma AccumulateEnds(acc: DispatchResult, reason: StopReason, pc: U32, s: State, cache: Cache)
    ensures Accumulated(acc, Ends(reason, pc, s, cache)) == RunResult(acc.(reason := reason, nextPc := pc), s, cache)
  {
  }

  lemma AccumulateCounted(acc: DispatchResult, lookup: Lookup, r: RunResult)
    ensures Accumulated(acc, Counted(lookup, r)) == Accumulated(CountLookup(acc, lookup), r)
  {
  }

  lemma AccumulateExecuted(acc: DispatchResult, n: nat, r: RunResult)
    ensures Accumulated(acc, Executed(n, r)) ==
            Accumulated(acc.(blocksExecuted := acc.blocksExecuted + 1,
                             instructionsExecuted := acc.instructionsExecuted + n), r)
  {
  }
}
