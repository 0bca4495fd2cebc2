/** Which words the dispatcher takes, stated about the words themselves, and what its
    counters count (src/recompiler/windows/r5900_block_dispatcher.cpp). */
module DispatcherWords {
  import opened Words
  import opened Options
  import opened GuestState
  import opened MemoryMap
  import opened ControlFlow
  import opened DecoderFacts
  import opened Dispatcher
  import opened DispatcherRuns
  import D = Decoder
  import L = Lowering
  import B = X64Backend
  import C = X64Correctness
  import Fingerprint
  import Isa

  // ---------------------------------------------------------------- words

  /** A CTC1 of any control register. */
  predicate ControlMove(word: U32) { D.Primary(word) == 0x11 && D.Rs(word) == 0x06 }

  lemma EligibleMnemonics(i: D.Instruction)
    ensures Eligible(i) <==> Isa.DecodedMnemonic(i, 31).Some?
  {
  }

  lemma MnemonicsOfControl(i: D.Instruction, rd: U8)
    ensures Isa.DecodedMnemonic(i, 31).Some? <==> Isa.DecodedMnemonic(i, rd).Some? || i == D.Ctc1
    ensures Isa.DecodedMnemonic(i, 31).Some? ==> i != D.Syscall && i != D.Break && i != D.Unknown
  {
  }

  lemma ControlMoveDecodes(word: U32)
    ensures D.Decode(word).instruction == D.Ctc1 <==> ControlMove(word)
  {
    hide D.Classify, SpecialCode, RegimmCode, OpcodeCode, AccessCode;
    DecodesExactly(word, D.Ctc1);
    ControlMoveCodes();
  }

  lemma ControlMoveCodes()
    ensures SpecialCode(D.Ctc1) == RegimmCode(D.Ctc1) == OpcodeCode(D.Ctc1) == AccessCode(D.Ctc1) == -1
  {
  }

  /** Supported words and control moves do not transfer control or trap. */
  lemma SupportedCodes(word: U32)
    requires Isa.MnemonicOf(word).Some? || ControlMove(word)
    ensures !BranchCode(D.Primary(word), D.Rt(word)) && !JumpCode(D.Primary(word), D.Funct(word))
    ensures !TrapCode(D.Primary(word), D.Funct(word))
  {
    hide D.Primary, D.Rs, D.Rt, D.Rd, D.Sa;
    if word == 0 {
      assert D.Primary(word) == 0 && D.Funct(word) == 0 by {
        ZeroFields();
      }
    }
  }

  lemma ZeroFields()
    ensures D.Primary(0) == 0 && D.Funct(0) == 0
  {
  }

  /** What the dispatcher does with a word, from its codes: it stops in front of exactly
      the branches and jumps as control flow, of SYSCALL and BREAK as a trap, and of
      every word but the supported mnemonics and CTC1 as unsupported. */
  lemma BoundaryOfWord(word: U32)
    ensures var primary, rt, funct := D.Primary(word), D.Rt(word), D.Funct(word);
            BoundaryOf(D.Decode(word)) ==
            if BranchCode(primary, rt) || JumpCode(primary, funct) then Some(StopControlFlow)
            else if TrapCode(primary, funct) then Some(StopTrap)
            else if Isa.MnemonicOf(word).Some? || ControlMove(word) then None
            else Some(StopUnsupported)
  {
    hide D.Classify, Eligible, Isa.Identify, Isa.DecodedMnemonic, BranchCode, JumpCode, TrapCode, LoadCode, StoreCode,
      WidthCode, LikelyCode, LinkCode, ControlMove, D.Primary, D.Rs, D.Rt, D.Rd, D.Sa, D.Funct;
    var d := D.Decode(word);
    DecodedAttributes(word);
    ControlMoveDecodes(word);
    WordZero(word);
    Isa.DecoderIdentifies(word, D.Primary(word), D.Rs(word), D.Rt(word), D.Rd(word), D.Sa(word), D.Funct(word));
    EligibleMnemonics(d.instruction);
    MnemonicsOfControl(d.instruction, d.rd);
  }

  lemma WordZero(word: U32)
    ensures word == 0 ==> D.Primary(word) == 0
  {
  }

  /** Exactly one reason to stop, or none: taken words are the supported mnemonics and
      CTC1. */
  lemma TakenWords(word: U32)
    ensures BoundaryOf(D.Decode(word)).None? <==> Isa.MnemonicOf(word).Some? || ControlMove(word)
  {
    hide D.Decode, Isa.MnemonicOf, ControlMove, BoundaryOf, BranchCode, JumpCode, TrapCode;
    BoundaryOfWord(word);
    if Isa.MnemonicOf(word).Some? || ControlMove(word) {
      SupportedCodes(word);
    }
  }

  /** An instruction runs exactly when its word is fetched and is a supported mnemonic. */
  lemma RunnableWords(m: MapValue, requireExecutable: bool, pc: U32)
    requires WellFormed(m)
    ensures Runnable(m, requireExecutable, pc) <==>
            var site := FetchSite(m, pc, requireExecutable);
            site.Some? && ReadU32At(m, pc).Some? && Isa.MnemonicOf(ReadU32At(m, pc).value).Some?
  {
    hide D.Classify, L.Lower, BoundaryOf, Isa.Identify, Isa.DecodedMnemonic, FetchSite, WellFormed, D.Primary, D.Rs,
      D.Rt, D.Rd, D.Sa, D.Funct, ReadU32At;
    var site := FetchSite(m, pc, requireExecutable);
    if site.Some? {
      FetchedSite(m, pc, requireExecutable);
      var word := site.value.decoded.raw;
      WordZero(word);
      Isa.DecoderIdentifies(word, D.Primary(word), D.Rs(word), D.Rt(word), D.Rd(word), D.Sa(word), D.Funct(word));
      Isa.LoweringSupports(site.value.decoded, pc);
      TakenWords(word);
    }
  }

  // ---------------------------------------------------------------- counters

  /** The cached words of pc are the n words now in memory from pc on. */
  predicate CachedWordsAreCurrent(m: MapValue, cache: Cache, pc: U32, n: nat)
    requires WellFormed(m)
  {
    && pc in cache && |cache[pc].guestWords| == n
    && forall k :: 0 <= k < n ==> ReadU32At(m, PcAt(pc, k)) == Some(cache[pc].guestWords[k])
  }

  lemma HitIffCurrent(m: MapValue, o: ControlFlowOptions, cache: Cache, pc: U32)
    requires WellFormed(m) && CacheValid(cache) && PlanAt(m, o, pc).PlanChunk?
    ensures var prefix := PlanAt(m, o, pc).prefix;
            ExactHit(cache, pc, WordsOf(prefix)) <==> CachedWordsAreCurrent(m, cache, pc, |prefix|)
  {
    hide PlanAt, LowerAll, B.Compile, Fingerprint.FingerprintOf, D.Decode, FetchSite, ReadU32At, PcAt, BoundaryOf,
      WellFormed;
    PrefixIsCurrentMemory(m, o, pc);
    var words := WordsOf(PlanAt(m, o, pc).prefix);
    if CachedWordsAreCurrent(m, cache, pc, |words|) {
      forall k | 0 <= k < |words|
        ensures cache[pc].guestWords[k] == words[k]
      {
        assert ReadU32At(m, PcAt(pc, k)) == Some(cache[pc].guestWords[k]);
      }
      assert cache[pc].guestWords == words;
    }
  }

  lemma PrepareLookup(cache: Cache, pc: U32, prefix: seq<Site>)
    ensures Prepare(cache, pc, prefix).lookup ==
            if ExactHit(cache, pc, WordsOf(prefix)) then Hit else if pc in cache then Stale else Miss
  {
    hide LowerAll, B.Compile, ExactHit;
  }

  /** The counters of one block: a hit exactly when the cached words are those in
      memory, a miss exactly without an entry, a recompilation otherwise. */
  lemma OneBlockCounters(fadd: F32Add, m: MapValue, o: ControlFlowOptions, cache: Cache, pc: U32, s: State)
    requires WellFormed(m) && CacheValid(cache) && PlanAt(m, o, pc).PlanChunk?
    ensures var d := CachedRun(fadd, m, o, cache, pc, s, 1).result;
            var current := CachedWordsAreCurrent(m, cache, pc, |PlanAt(m, o, pc).prefix|);
            && d.cacheHits == (if current then 1 else 0)
            && d.cacheMisses == (if pc in cache then 0 else 1)
            && d.recompilations == (if pc in cache && !current then 1 else 0)
  {
    hide PlanAt, Prepare, CachedWordsAreCurrent, C.NativeExecute, PcAt, WellFormed, EntryValid;
    HitIffCurrent(m, o, cache, pc);
    PrepareLookup(cache, pc, PlanAt(m, o, pc).prefix);
  }

  /** A lookup at pc would hit. */
  predicate Warm(m: MapValue, o: ControlFlowOptions, cache: Cache, pc: U32)
    requires WellFormed(m)
  {
    PlanAt(m, o, pc).PlanChunk? && ExactHit(cache, pc, WordsOf(PlanAt(m, o, pc).prefix))
  }

  lemma PrepareWarms(m: MapValue, o: ControlFlowOptions, cache: Cache, pc: U32, at: U32)
    requires WellFormed(m) && PlanAt(m, o, pc).PlanChunk? && Prepare(cache, pc, PlanAt(m, o, pc).prefix).Ready?
    ensures var p := Prepare(cache, pc, PlanAt(m, o, pc).prefix);
            Warm(m, o, p.cache, pc) && (Warm(m, o, cache, at) ==> Warm(m, o, p.cache, at))
  {
    hide PlanAt, LowerAll, B.Compile, Fingerprint.FingerprintOf, PcAt, WellFormed;
  }

  lemma PrepareHit(cache: Cache, pc: U32, prefix: seq<Site>)
    requires ExactHit(cache, pc, WordsOf(prefix))
    ensures var p := Prepare(cache, pc, prefix); p.Ready? && p.lookup == Hit && p.cache == cache
  {
    hide LowerAll, B.Compile, Fingerprint.FingerprintOf;
  }

  lemma {:induction false} RunKeepsWarm(fadd: F32Add, m: MapValue, o: ControlFlowOptions, cache: Cache, pc: U32,
                                        s: State, budget: nat, at: U32)
    requires WellFormed(m) && Warm(m, o, cache, at)
    ensures Warm(m, o, CachedRun(fadd, m, o, cache, pc, s, budget).cache, at)
    decreases budget
  {
    hide PlanAt, Prepare, Warm, C.NativeExecute, PcAt, WellFormed;
    if budget > 0 && PlanAt(m, o, pc).PlanChunk? {
      var prefix := PlanAt(m, o, pc).prefix;
      var p := Prepare(cache, pc, prefix);
      if p.Ready? {
        PrepareWarms(m, o, cache, pc, at);
        if budget > 1 {
          RunKeepsWarm(fadd, m, o, p.cache, PcAt(pc, |prefix|), C.NativeExecute(fadd, p.native, s), budget - 1, at);
        }
      }
    }
  }

  /** Every lookup of a run hits and leaves the cache alone. */
  predicate AllHits(r: RunResult, cache: Cache) {
    && r.cache == cache && r.result.cacheHits == r.result.blocksExecuted
    && r.result.cacheMisses == 0 && r.result.recompilations == 0
  }

  lemma {:induction false} RunHitsAfter(fadd: F32Add, m: MapValue, o: ControlFlowOptions, cache: Cache, pc: U32,
                                        s: State, later: Cache, s': State, budget: nat)
    requires WellFormed(m)
    requires var r := CachedRun(fadd, m, o, cache, pc, s, budget);
             && r.result.reason != LoweringFailure && r.result.reason != CompileFailure
             && forall at: U32 :: Warm(m, o, r.cache, at) ==> Warm(m, o, later, at)
    ensures AllHits(CachedRun(fadd, m, o, later, pc, s', budget), later)
    decreases budget
  {
    hide PlanAt, Prepare, ExactHit, C.NativeExecute, PcAt, WellFormed;
    if budget > 0 && PlanAt(m, o, pc).PlanChunk? {
      var plan := PlanAt(m, o, pc);
      var p := Prepare(cache, pc, plan.prefix);
      PrepareReasons(cache, pc, plan.prefix);
      PrepareWarms(m, o, cache, pc, pc);
      var next, after := PcAt(pc, |plan.prefix|), C.NativeExecute(fadd, p.native, s);
      if plan.boundary.None? && budget > 1 {
        RunKeepsWarm(fadd, m, o, p.cache, next, after, budget - 1, pc);
      }
      assert Warm(m, o, CachedRun(fadd, m, o, cache, pc, s, budget).cache, pc);
      PrepareHit(later, pc, plan.prefix);
      if plan.boundary.None? && budget > 1 {
        var after' := C.NativeExecute(fadd, Prepare(later, pc, plan.prefix).native, s');
        RunHitsAfter(fadd, m, o, p.cache, next, after, later, after', budget - 1);
      }
    }
  }

  /** Repeating a run over unchanged memory, from any state, compiles nothing: every
      block is a hit and the cache stays as it is. */
  lemma RepeatedRunHits(fadd: F32Add, m: MapValue, o: ControlFlowOptions, cache: Cache, pc: U32, s: State, s': State,
                        budget: nat)
    requires WellFormed(m) && CacheValid(cache)
    ensures var r := CachedRun(fadd, m, o, cache, pc, s, budget);
            r.result.reason != LoweringFailure ==>
              var again := CachedRun(fadd, m, o, r.cache, pc, s', budget);
              && again.cache == r.cache && again.result.cacheHits == again.result.blocksExecuted
              && again.result.cacheMisses == 0 && again.result.recompilations == 0
  {
    hide CachedRun, Warm, WellFormed, CacheValid;
    LookupsCountBlocks(fadd, m, o, cache, pc, s, budget);
    var r := CachedRun(fadd, m, o, cache, pc, s, budget);
    if r.result.reason != LoweringFailure {
      RunHitsAfter(fadd, m, o, cache, pc, s, r.cache, s', budget);
    }
  }
}
