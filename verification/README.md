# Verification model of the R5900 recompilation pipeline

This project models, in Dafny, the path a PS2 executable takes through the
repository, and proves properties of it:

    ELF file -> memory map -> decoder -> basic block -> IR -> validator
      -> { reference executor, x64 byte emitter } -> caching block dispatcher

and the reachable-CFG search and analysis report that share its front half.

| file | what it models |
|---|---|
| `Words.dfy`, `Options.dfy` | machine words with explicit wrap-around, bitwise operations, little-endian bytes |
| `Decoder.dfy`, `DecoderFacts.dfy`, `Ir.dfy`, `Lowering.dfy`, `Validation.dfy` | the front end |
| `GuestState.dfy`, `Executor.dfy` | the guest state object and the reference executor |
| `Isa.dfy` | an independent architectural semantics of the supported instructions |
| `X64Machine.dfy` | a small x86-64 machine: encoder, byte decoder, registers, flags, a byte-addressed state record |
| `StateRecord.dfy` | the layout of the state record behind RCX |
| `X64Backend.dfy`, `X64Correctness.dfy` | the byte emitter and its correctness |
| `Elf.dfy`, `MemoryMap.dfy`, `MemoryMapObject.dfy`, `FileFacts.dfy` | ELF parsing and guest memory |
| `ControlFlow.dfy`, `BlockFacts.dfy` | the basic-block analyzer |
| `Fingerprint.dfy`, `Dispatcher.dfy`, `DispatcherRuns.dfy`, `DispatcherStops.dfy`, `DispatcherOutcomes.dfy`, `DispatcherWords.dfy`, `DispatcherObject.dfy` | the block dispatcher and its cache |
| `Reachability.dfy`, `ReachabilityFacts.dfy`, `ReachabilityEdges.dfy` | the worklist search |
| `Sorting.dfy`, `Report.dfy`, `ReportFacts.dfy` | the analysis report as a record |

Objects that change in place are classes (`GuestState.Guest`,
`X64Backend.CodeBuffer`, `MemoryMapObject.Ps2MemoryMap`,
`DispatcherObject.R5900BlockDispatcher`); loops are loops, proved equal to a
specification function whose properties the lemmas state. The `Facts` modules,
`ReachabilityEdges.dfy` and `DispatcherWords.dfy` tie those functions to the bits of
a word, the bytes of a file and the edges of a block, without the functions' own
terms.

The x86-64 encodings follow the Intel 64 and IA-32 Architectures Software
Developer's Manual, Volume 2 (section 2.1.5, ModR/M addressing; section 2.2.1,
REX prefixes; and the entries of the instructions used). The ELF layout follows
the System V gABI, chapter 4 (ELF Header) and chapter 5 (Program Header).
Program counters are 32-bit and wrap; all PC arithmetic is modulo 2^32.

Single-precision addition is a parameter `fadd` on 32-bit patterns, the same on
both sides of every statement; every theorem holds for all of them.

Two findings:

- `CTC1` is eligible for the dispatcher with any control register, while lowering
  accepts only register 31 (`DispatcherStops.UnlowerableIff`). `LoweringFailure` is
  therefore reachable, and reports the PC of the rejected instruction although none
  of its chunk ran. The usual law for the next PC fails there:
  `DispatcherRuns.LoweringFailureSkipsAhead` gives a two-instruction program. From
  memory, start PC, instruction limit and block budget alone,
  `DispatcherStops.LoweringFailureIff` decides when a run ends so,
  `DispatcherStops.FailureReports` what it then reports, and
  `DispatcherStops.NextPc` when the law holds: exactly when no instruction within
  reach fails to lower at an index that is not a multiple of the limit.
- The dispatcher can never report a compile failure caused by validation
  (`DispatcherRuns.LookupsCountBlocks`), and the analyzer's arms for a transfer
  without a target or of no known kind are unreachable
  (`ControlFlow.UnexpectedArmsUnreachable`).

## Model

| member | source | states |
|---|---|---|
| X64Correctness.CompilerCorrect | src/recompiler/windows/r5900_x64_backend.cpp:198-518 | Compiler correctness: for every IR vector and every machine state, if the compiler accepts, fetching and decoding the emitted bytes reaches RET with exactly the state, in all fields, that the reference executor computes; if it rejects, the executor reports the same class of first error |
| X64Correctness.NativeExecuteIsExecute | src/recompiler/windows/r5900_x64_backend.cpp:453-457 | Calling a compiled block on any guest state has the effect of the reference executor and no error, whatever the scratch registers, the carry and the record's padding hold at the call |
| X64Correctness.InstructionSimulates | src/recompiler/windows/r5900_x64_backend.cpp:482-515 | Each emitted case simulates the executor's step on any record contents |
| X64Correctness.PadduwSimulates | src/recompiler/windows/r5900_x64_backend.cpp:343-369 | The four-lane add/sbb/or loop is the packed saturating add for every overlap of destination and sources, including GPR0 |
| X64Correctness.SaturatingCode | src/recompiler/windows/r5900_x64_backend.cpp:343-369 | ADD, SBB of EDX with itself and OR saturate one lane through the carry |
| X64Correctness.CompiledBytesParseUniquely | src/recompiler/windows/r5900_x64_backend.cpp:467-518 | The byte decoder recovers exactly the intended instruction list; RET is its last instruction, the only RET, and 0xC3 is the last byte |
| X64Correctness.BlockStoresInside | src/recompiler/windows/r5900_x64_backend.cpp:198-518 | Every store lies inside GPR0 or inside the destination some IR instruction of the block names |
| X64Machine.DecodeInvertsEncode | src/recompiler/windows/r5900_x64_backend.cpp:100-165 | Every encoding, with all disp32, imm8, imm32 and imm64 values, decodes back to its instruction and length whatever bytes follow |
| X64Machine.DisassembleInvertsAssemble | src/recompiler/windows/r5900_x64_backend.cpp:467-518 | Any assembled instruction list parses back to itself |
| X64Machine.RunAssembled | src/recompiler/windows/r5900_x64_backend.cpp:453-457 | Running assembled bytes up to RET is executing the instructions they encode |
| X64Machine.AluEncodings | src/recompiler/windows/r5900_x64_backend.cpp:198-369 | The register forms of ADD, OR, AND, XOR and SBB encode to the literal bytes of the emitter |
| X64Machine.RegisterEncodings | src/recompiler/windows/r5900_x64_backend.cpp:281-297 | The immediate forms, the shift, CDQE and RET encode to the literal bytes of the emitter |
| X64Machine.StoreEncodings | src/recompiler/windows/r5900_x64_backend.cpp:105-117 | The stores of RAX and EAX to the state encode to 48 89 81 and 89 81 with the displacement |
| X64Machine.Load32Encoding | src/recompiler/windows/r5900_x64_backend.cpp:118-129 | The 32-bit loads encode to 8B 81 and 8B 91 with the displacement |
| X64Machine.Load64Encoding | src/recompiler/windows/r5900_x64_backend.cpp:130-143 | The 64-bit loads encode to 48 8B 81 and 48 8B 91 with the displacement |
| X64Machine.ImmediateEncodings | src/recompiler/windows/r5900_x64_backend.cpp:144-165 | The loads of immediates encode to B8, BA, 48 B8 and 48 BA with the immediate |
| X64Machine.VectorEncodings | src/recompiler/windows/r5900_x64_backend.cpp:315-342 | The moves of a lane and the shifts by four bytes encode to the literal bytes |
| X64Machine.VectorMemoryEncodings | src/recompiler/windows/r5900_x64_backend.cpp:299-403 | The SSE loads, add and store encode to F3 0F 6F, 10, 58 and 11 with the operand |
| X64Backend.CompileR5900IrX64 | src/recompiler/windows/r5900_x64_backend.cpp:467-518 | The push_back loop emits exactly the specified bytes, and reports the first validation error |
| X64Backend.EmitBlock | src/recompiler/windows/r5900_x64_backend.cpp:476-518 | The emitted buffer encodes the block's instruction list: GPR0 cleared, each instruction in order, GPR0 cleared |
| X64Backend.CodeBuffer.EmitPadduw | src/recompiler/windows/r5900_x64_backend.cpp:343-369 | The lane loop appends the encoding of four lanes, with no store to GPR0 and no shift behind the last lane |
| X64Backend.CodeBuffer.EmitMtsah | src/recompiler/windows/r5900_x64_backend.cpp:281-298 | Appends load, mask, xor with the low three immediate bits, shift, store to SA |
| X64Backend.CodeBuffer.EmitU32 | src/recompiler/windows/r5900_x64_backend.cpp:87-93 | Appends the four little-endian bytes of a value |
| X64Backend.CodeBuffer.EmitU64 | src/recompiler/windows/r5900_x64_backend.cpp:94-98 | Appends the eight little-endian bytes of a value |
| StateRecord.SlotsDisjoint | src/recompiler/windows/r5900_x64_backend.cpp:27-71 | Distinct fields of the state record occupy disjoint bytes |
| StateRecord.StoreSlot | src/recompiler/windows/r5900_x64_backend.cpp:27-71 | Storing a value at a field's offset updates that field of the state and no other |
| StateRecord.ViewOfImage | src/recompiler/windows/r5900_x64_backend.cpp:453-457 | Laying a state out as a record and reading it back is the identity |
| Executor.ExecuteR5900Ir | src/recompiler/r5900_ir_executor.cpp:74-199 | The in-place loop leaves the state and returns the error of the specification function |
| Executor.ExecuteInstruction | src/recompiler/r5900_ir_executor.cpp:86-190 | One in-place case is one step of the specification |
| Executor.ExecuteConcat | src/recompiler/r5900_ir_executor.cpp:74-199 | Executing A ++ B is executing A and then B: the GPR0 normalisation in between is absorbed |
| Executor.GprZeroStaysZero | src/recompiler/r5900_ir_executor.cpp:76-199 | GPR0 reads zero after the instruction loop, whatever state came in and whether or not it stopped at an invalid instruction |
| Executor.ExecuteReportsFirstError | src/recompiler/r5900_ir_executor.cpp:78-84 | The reported error is that of the first invalid instruction, whatever the state |
| Executor.InvalidStopsThere | src/recompiler/r5900_ir_executor.cpp:78-84 | An invalid instruction ends the run with its error, keeping the state of what ran before it, whatever follows |
| Executor.SignExtendWordMeaning | src/recompiler/r5900_ir_executor.cpp:37-42 | The mask-and-or is two's-complement sign extension |
| Executor.AddLanesMeaning | src/recompiler/r5900_ir_executor.cpp:44-69 | The lane-by-lane loop builds the two halves from the four saturated sums |
| Executor.PackedAddSaturate | src/recompiler/r5900_ir_executor.cpp:44-69 | The imperative lane loop is the specified packed sum |
| Validation.ValidIffWellShaped | src/recompiler/r5900_ir_validation.cpp:352-398 | The early-return checks accept exactly the instructions of one declarative shape |
| Validation.ErrorCauses | src/recompiler/r5900_ir_validation.cpp:352-398 | Exactly an opcode outside the enumeration is unsupported, and only a register out of range is an invalid register |
| Validation.ErrorKinds | src/recompiler/r5900_ir_validation.cpp:19-398 | What is well shaped but for registers out of range is an invalid register; what has all registers in range is malformed |
| Lowering.LoweredIsOneValidInstruction | src/recompiler/r5900_ir.cpp:76-236 | Whatever lowers gives exactly one instruction, at the guest PC and with the raw word, and it validates |
| Isa.FrontEndCorrect | src/recompiler/r5900_ir.cpp:76-236 | Semantic preservation: a word lowers if and only if it encodes a supported mnemonic, and executing its IR has the effect an independent architectural semantics gives the word |
| Isa.DecoderIdentifies | src/recompiler/r5900_decoder.cpp:33-220 | The decoder tables agree with an independent list of encodings of the supported mnemonics |
| DecoderFacts.FieldsRecombine | src/recompiler/r5900_decoder.cpp:154-164 | The six fields partition the word; the immediate and the jump index are its low 16 and 26 bits |
| DecoderFacts.DecodesExactly | src/recompiler/r5900_decoder.cpp:33-220 | A word decodes to an instruction exactly when it has that instruction's encoding, for all instructions, and to Unknown exactly when it has none |
| DecoderFacts.DecodedAttributes | src/recompiler/r5900_decoder.cpp:6-31 | Class, access width, likely and link flags are those of the word's opcode, rt and function codes |
| DecoderFacts.BranchTarget | src/recompiler/r5900_decoder.cpp:138-144 | A branch with immediate i goes i + 1 words forward, or back from its delay slot for a negative i, wrapping; immediate -1 branches to itself |
| Decoder.Decode | src/recompiler/r5900_decoder.cpp:154-220 | Every word decodes to a consistent record: jumps are exactly J, JAL, JR, JALR; exactly branches and jumps have delay slots; only branches are likely; only SYSCALL and BREAK trap |
| Decoder.DirectTargetExists | src/recompiler/r5900_decoder.cpp:139-152 | A decoded word has a direct target exactly when it is a branch, J or JAL |
| Decoder.JumpTargetValue | src/recompiler/r5900_decoder.cpp:139-152 | The mask-and-or target is the 256 MiB segment of the delay slot plus four times the index |
| Decoder.DirectTargetAligned | src/recompiler/r5900_decoder.cpp:139-152 | From an aligned PC every direct target is aligned, with wrap-around |
| Elf.ParsePs2Elf | src/recompiler/ps2_elf.cpp:59-151 | The parser, loop included, returns the specified image or error |
| Elf.ParseMeaning | src/recompiler/ps2_elf.cpp:59-151 | A file parses exactly when its header passes and every PT_LOAD entry is acceptable; the image lists each PT_LOAD entry once, in table order |
| Elf.ScanSucceedsIff | src/recompiler/ps2_elf.cpp:117-144 | The program-header loop succeeds exactly when every entry is acceptable |
| FileFacts.ParsesIff | src/recompiler/ps2_elf.cpp:59-151 | By raw bytes: a file parses exactly when eleven header conditions at fixed offsets hold and every PT_LOAD entry is acceptable |
| FileFacts.ParseErrors | src/recompiler/ps2_elf.cpp:59-144 | The first failing header condition, or the first unacceptable entry, decides the error |
| FileFacts.GuestReadsFile | src/recompiler/ps2_elf.cpp:117-144 | By raw bytes, for every PT_LOAD entry of a parsed and mapped file: guest byte p_vaddr + k reads file byte p_offset + k below p_filesz and 0 up to p_memsz, in a region with the entry's range and flags |
| FileFacts.MappableByAddress | src/runtime/ps2_memory_map.cpp:43-77 | Mappable means that every address a segment occupies is below 2^32 and no two segments occupy a common one |
| MemoryMapObject.FromElf | src/runtime/ps2_memory_map.cpp:34-104 | Accepts exactly the images whose non-empty ranges fit in 2^32 and are pairwise disjoint, says which of the two failed, never reports a payload mismatch, and maps one region per non-empty segment |
| MemoryMapObject.ScanAdjacent | src/runtime/ps2_memory_map.cpp:72-77 | The loop over neighbours says whether all of them are apart |
| MemoryMapObject.SortingDecides | src/runtime/ps2_memory_map.cpp:68-77 | Sorting and comparing neighbours decides mappability in both directions |
| MemoryMap.AdjacentDecidesGlobal | src/runtime/ps2_memory_map.cpp:72-77 | On sorted non-empty regions, neighbours being apart is all pairs being apart |
| MemoryMap.PendingApart | src/runtime/ps2_memory_map.cpp:43-77 | The regions kept are pairwise apart exactly when the segments are, empty ones ignored |
| MemoryMapObject.ParsedFileIsMapped | src/recompiler/ps2_elf.cpp:59-151 | End to end: reading guest byte vaddr + k succeeds and gives file[offset + k] for k below p_filesz and 0 up to p_memsz |
| MemoryMap.FlatByteIsRead | src/runtime/ps2_memory_map.cpp:146-152 | A one-byte read succeeds exactly on the bytes of the flat memory, with their values |
| MemoryMapObject.MappedBytesOnly | src/runtime/ps2_memory_map.cpp:79-92 | Every mapped byte belongs to some non-empty segment |
| MemoryMap.TranslateIff | src/runtime/ps2_memory_map.cpp:110-144 | An access succeeds exactly when one region holds the whole range, and that region is unique |
| MemoryMap.ReadRefinesFlat | src/runtime/ps2_memory_map.cpp:146-173 | A read returns the bytes of the flat memory |
| MemoryMap.WriteRefinesFlat | src/runtime/ps2_memory_map.cpp:175-204 | A write changes the flat memory in its range only, and changes nothing when it fails |
| MemoryMap.ReadAfterWrite | src/runtime/ps2_memory_map.cpp:146-204 | At any widths and overlap, a read after a write sees the written bytes where they overlap and the old bytes elsewhere, and succeeds as before |
| MemoryMap.WordRoundTrip | src/runtime/ps2_memory_map.cpp:164-204 | A word written is read back |
| MemoryMapObject.Ps2MemoryMap.TranslateRange | src/runtime/ps2_memory_map.cpp:110-144 | The region loop finds the specified window |
| MemoryMapObject.Ps2MemoryMap.ReadU8 | src/runtime/ps2_memory_map.cpp:146-152 | Reads the byte of the value model |
| MemoryMapObject.Ps2MemoryMap.ReadU16 | src/runtime/ps2_memory_map.cpp:154-162 | Reads the little-endian halfword of the value model |
| MemoryMapObject.Ps2MemoryMap.ReadU32 | src/runtime/ps2_memory_map.cpp:164-173 | Reads the little-endian word of the value model |
| MemoryMapObject.Ps2MemoryMap.WriteU8 | src/runtime/ps2_memory_map.cpp:175-182 | The in-place write is the write of the value model; the result says whether it translated |
| MemoryMapObject.Ps2MemoryMap.WriteU16 | src/runtime/ps2_memory_map.cpp:184-192 | The same for the two little-endian bytes |
| MemoryMapObject.Ps2MemoryMap.WriteU32 | src/runtime/ps2_memory_map.cpp:194-204 | The same for the four little-endian bytes |
| ControlFlow.StatusAgreesWithTranslate | src/analysis/r5900_control_flow.cpp:31-54 | The range status is Unmapped exactly when translation fails, and otherwise reports the execute flag of the region translated into |
| ControlFlow.FetchFailureIsExact | src/analysis/r5900_control_flow.cpp:72-94 | A failed fetch is classified as unmapped exactly when the word cannot be read, for instructions and delay slots |
| ControlFlow.UnexpectedArmsUnreachable | src/analysis/r5900_control_flow.cpp:102-167 | A control transfer fails only for its delay slot, with that slot's error, and otherwise ends the block with that slot and as a known transfer |
| ControlFlow.ScanSites | src/analysis/r5900_control_flow.cpp:185-215 | A block is the run of consecutive fetched words; exactly its last instruction may end it |
| ControlFlow.BlockSplit | src/analysis/r5900_control_flow.cpp:169-215 | A block that hit its limit, followed by the analysis from its fallthrough target, is the analysis with the summed limit; any other result does not depend on the larger limit |
| ControlFlow.BlockEdges | src/analysis/r5900_control_flow.cpp:102-167 | A block has at most two edges and every target is aligned |
| BlockFacts.BlockMeans | src/analysis/r5900_control_flow.cpp:102-215 | A block is the words at consecutive PCs, straight-line up to the last, and its end kind, delay slot, fallthrough flag and exact edges with targets are those of its last instruction |
| BlockFacts.BlockFails | src/analysis/r5900_control_flow.cpp:72-111 | An analysis fails for a zero limit, an unaligned start, the first unfetched instruction, or a transfer with an unfetched delay slot, with the error that tells these and readability apart |
| BlockFacts.FetchMeans | src/analysis/r5900_control_flow.cpp:31-70 | An instruction is fetched exactly when its word is readable and, if required, its region has PF_X |
| BlockFacts.StraightMeans | src/analysis/r5900_control_flow.cpp:195-209 | A block goes on behind exactly the known words that are no branch, jump or trap by their codes |
| ControlFlow.AnalyzeR5900BasicBlock | src/analysis/r5900_control_flow.cpp:169-215 | The loop over the map object computes the specified block |
| ControlFlow.FinishTransfer | src/analysis/r5900_control_flow.cpp:102-167 | Delay slot, end kind and edges as specified |
| Fingerprint.FingerprintGuestWords | src/recompiler/windows/r5900_block_dispatcher.cpp:53-80 | The hash loops fold exactly the PC, the word count and the words, little-endian |
| Fingerprint.OneByteNeverCollides | src/recompiler/windows/r5900_block_dispatcher.cpp:53-80 | For one start PC and word count, words that differ in exactly one byte have different fingerprints |
| Fingerprint.FnvByteInjective | src/recompiler/windows/r5900_block_dispatcher.cpp:53-56 | One hash step is injective in the hash and in the byte |
| Fingerprint.HashedLayout | src/recompiler/windows/r5900_block_dispatcher.cpp:70-82 | What is hashed is exactly the start PC in four bytes, the word count in eight and the words, little-endian |
| Fingerprint.StartPcIsHashed | src/recompiler/windows/r5900_block_dispatcher.cpp:70-82 | Start PCs that differ in one byte have different fingerprints for the same words |
| Fingerprint.KnownValue | src/recompiler/windows/r5900_block_dispatcher.cpp:53-56 | The hash of the byte 0x61 is the published FNV-1a value |
| Dispatcher.CacheRefinement | src/recompiler/windows/r5900_block_dispatcher.cpp:96-257 | With a valid cache, a run returns the state, stop reason, next PC and counts of a dispatcher that decodes and executes current memory without cache or native code, and keeps the cache valid |
| Dispatcher.PrepareCorrect | src/recompiler/windows/r5900_block_dispatcher.cpp:178-236 | Hit, miss or stale entry: the chosen native code has the effect of the current words; it fails only where lowering fails |
| Dispatcher.PrefixIsCurrentMemory | src/recompiler/windows/r5900_block_dispatcher.cpp:121-176 | A chunk is the decoding of the words now in memory at consecutive PCs, none of them a boundary, so re-reading them succeeds |
| DispatcherRuns.SessionRefinement | src/recompiler/windows/r5900_block_dispatcher.cpp:84-257 | Over every interleaving of runs, guest-memory writes and cache clears, all runs observe what the cacheless dispatcher observes |
| DispatcherRuns.BudgetComposition | src/recompiler/windows/r5900_block_dispatcher.cpp:109-257 | A budget of a + b is a budget of a and, if exhausted, a run on with b: same reason, PC, state and cache, every counter adding |
| DispatcherRuns.LookupsCountBlocks | src/recompiler/windows/r5900_block_dispatcher.cpp:187-252 | Hits, misses and recompilations add up to the executed blocks, plus one for a lowering failure; an exhausted budget is used up; no compile failure |
| DispatcherRuns.ChunkSizeIndependence | src/recompiler/windows/r5900_block_dispatcher.cpp:111-253 | Runs with any instruction limits, budgets and caches that stop at control flow, a trap or an unsupported instruction agree on reason, next PC, count and state |
| DispatcherRuns.RunIsDescribed | src/recompiler/windows/r5900_block_dispatcher.cpp:111-253 | Every run executes a run of consecutive runnable instructions from the start PC and stops for the reason found behind them |
| DispatcherStops.LoweringFailureIff | src/recompiler/windows/r5900_block_dispatcher.cpp:199-206 | A run ends in a lowering failure exactly when, counting from the start PC, some instruction k does not lower, all before it run, its chunk k / limit is within the budget and the chunk's block analyzes |
| DispatcherStops.FailureReports | src/recompiler/windows/r5900_block_dispatcher.cpp:199-206 | Such a run reports the PC of instruction k, although it executed only k / limit blocks of limit instructions each |
| DispatcherStops.NextPc | src/recompiler/windows/r5900_block_dispatcher.cpp:238-246 | The next PC is start + 4 * executed modulo 2^32 exactly when no such instruction lies behind the first of its chunk: a condition on memory, start PC, limit and budget |
| DispatcherStops.UnlowerableIff | src/recompiler/windows/r5900_block_dispatcher.cpp:29-49 | What is taken into a chunk and does not lower is exactly a CTC1 to a control register other than 31 |
| DispatcherWords.BoundaryOfWord | src/recompiler/windows/r5900_block_dispatcher.cpp:29-148 | By the codes of the word: branches and jumps stop as control flow, SYSCALL and BREAK as traps, and all but the supported mnemonics and CTC1 as unsupported |
| DispatcherWords.TakenWords | src/recompiler/windows/r5900_block_dispatcher.cpp:29-51 | The dispatcher takes exactly the supported mnemonics and CTC1 |
| DispatcherWords.RunnableWords | src/recompiler/windows/r5900_block_dispatcher.cpp:128-209 | An instruction runs exactly when its word is fetched and is a supported mnemonic |
| DispatcherWords.OneBlockCounters | src/recompiler/windows/r5900_block_dispatcher.cpp:178-195 | A hit is counted exactly when the cached words are those in memory, a miss exactly without an entry, a recompilation otherwise |
| DispatcherWords.RepeatedRunHits | src/recompiler/windows/r5900_block_dispatcher.cpp:178-236 | Repeating a run over unchanged memory, from any state, hits every block and leaves the cache alone |
| DispatcherStops.BudgetExhaustedIff | src/recompiler/windows/r5900_block_dispatcher.cpp:249-252 | A run uses up its budget exactly when, from an aligned PC, budget * limit instructions run, and then executed exactly those |
| DispatcherOutcomes.StopReasonIff | src/recompiler/windows/r5900_block_dispatcher.cpp:96-257 | Each of the eight stop reasons occurs exactly under its own condition on memory, options, start PC and budget, whatever the state and the cache |
| DispatcherOutcomes.ExactlyOneReason | src/recompiler/windows/r5900_block_dispatcher.cpp:96-257 | These conditions are exhaustive and exclude each other |
| DispatcherOutcomes.BoundaryReports | src/recompiler/windows/r5900_block_dispatcher.cpp:128-162 | A run that reaches control flow, a trap or an unsupported instruction at index n, in an analyzable chunk within the budget, executes exactly the n instructions in front of it and reports its PC |
| DispatcherOutcomes.AnalysisFailureReports | src/recompiler/windows/r5900_block_dispatcher.cpp:112-119 | A run whose chunk behind j full ones does not analyze executes those j blocks of limit instructions and reports the PC behind them |
| DispatcherRuns.CacheGrowsByMisses | src/recompiler/windows/r5900_block_dispatcher.cpp:92-94 | What cache_size means for a caller: over a run it grows by the reported misses, except for a last miss that failed to lower, and no cached PC is lost |
| DispatcherRuns.LoweringFailureSkipsAhead | src/recompiler/windows/r5900_block_dispatcher.cpp:199-206 | A program on which a lowering failure reports a PC beyond what was executed |
| DispatcherRuns.LoweringFailureIsControlMove | src/recompiler/windows/r5900_block_dispatcher.cpp:199-206 | A lowering failure names a CTC1 to a control register other than 31 |
| DispatcherObject.R5900BlockDispatcher.Run | src/recompiler/windows/r5900_block_dispatcher.cpp:96-257 | The loop over the object's cache, the map object and the caller's state gives the specified result, state and cache, and so the observations of the cacheless dispatcher |
| DispatcherObject.R5900BlockDispatcher.ChoosePlan | src/recompiler/windows/r5900_block_dispatcher.cpp:112-162 | The prefix loop chooses the specified chunk and boundary |
| DispatcherObject.R5900BlockDispatcher.ReadWords | src/recompiler/windows/r5900_block_dispatcher.cpp:164-176 | Re-reading the chunk's words gives the words it was decoded from; its failure branch is dead |
| DispatcherObject.R5900BlockDispatcher.PrepareBlock | src/recompiler/windows/r5900_block_dispatcher.cpp:178-236 | Lookup, lowering, compilation and installation as specified; a failure leaves the cache alone |
| DispatcherObject.R5900BlockDispatcher.ClearCache | src/recompiler/windows/r5900_block_dispatcher.cpp:88-90 | The cache is empty afterwards |
| Reachability.AnalyzeR5900Reachability | src/analysis/r5900_reachability.cpp:103-199 | The worklist loop, with the measure 3 * (max_blocks - blocks) + pending, computes the specified graph |
| Reachability.FollowEdges | src/analysis/r5900_reachability.cpp:150-196 | The edge loop schedules each followed target once and records calls and unresolved exits |
| Reachability.DetectOverlappingLeaders | src/analysis/r5900_reachability.cpp:50-99 | With distinct starts the set of emitted keys never rejects an issue: the nested loops report every overlapping pair |
| ReachabilityFacts.EntryDecides | src/analysis/r5900_reachability.cpp:106-138 | The analysis succeeds exactly for a non-zero limit and an entry that analyzes |
| ReachabilityFacts.ReachabilityIsSound | src/analysis/r5900_reachability.cpp:115-197 | The entry is the first block; starts are distinct; every block is the analysis of its start, at a finite distance from the entry; the limit is kept |
| ReachabilityFacts.BreadthFirst | src/analysis/r5900_reachability.cpp:115-197 | Blocks are listed in non-decreasing shortest-path distance from the entry |
| ReachabilityFacts.NothingNearerIsOmitted | src/analysis/r5900_reachability.cpp:121-131 | An analyzable target left out is at least as far away as every included block |
| ReachabilityFacts.LimitIffOpen | src/analysis/r5900_reachability.cpp:121-131 | A limit issue appears exactly when some followed edge leads to a target that is neither a block nor a failed target, and then the limit is used up |
| ReachabilityFacts.UntruncatedIsComplete | src/analysis/r5900_reachability.cpp:118-197 | Without a limit issue every reachable target that analyzes is a block of the graph |
| ReachabilityEdges.EdgeMeans | src/analysis/r5900_reachability.cpp:153-195 | The explored graph goes from a block along its taken, not-taken, jump, continuation and fallthrough edges, and along direct calls on request |
| ReachabilityEdges.EdgesAreExplored | src/analysis/r5900_reachability.cpp:121-197 | Without a limit issue, every such edge of a listed block leads to a listed block or a failed target |
| ReachabilityEdges.BlocksHaveParents | src/analysis/r5900_reachability.cpp:121-197 | Every listed block but the first is the target of such an edge of a listed block |
| ReachabilityEdges.LimitIssueIsGenuine | src/analysis/r5900_reachability.cpp:125-131 | A limit issue names a listed block and a target of it left unexamined, and is unique |
| ReachabilityEdges.OverlapIssuesMean | src/analysis/r5900_reachability.cpp:50-99 | Field by field: an overlap issue names a block start, twice, and another block that has it among its instructions or as its delay slot |
| ReachabilityFacts.TargetFailuresAreGenuine | src/analysis/r5900_reachability.cpp:133-147 | A target failure names an included block, a followed edge of it and the target's error, never an unaligned start or a zero limit |
| ReachabilityFacts.PrefixStability | src/analysis/r5900_reachability.cpp:121-197 | Blocks and calls found with a smaller block limit are prefixes of those with a larger one |
| ReachabilityFacts.FollowingCallsOnlyAdds | src/analysis/r5900_reachability.cpp:165-176 | An untruncated run that follows direct calls has every block of the run that does not |
| ReachabilityFacts.CallsAreExact | src/analysis/r5900_reachability.cpp:151-188 | The calls are exactly the call edges of the included blocks, at the PC of the block's last instruction |
| ReachabilityFacts.IndirectExitsAreExact | src/analysis/r5900_reachability.cpp:178-194 | Unresolved exits are reported for exactly the blocks that end in an indirect jump or call |
| ReachabilityFacts.OverlapsAreExact | src/analysis/r5900_reachability.cpp:50-99 | An overlap issue appears exactly for a block start that is a further instruction, or the delay slot, of another block, once, and every issue of these kinds names its leader and container so |
| Report.RenderReport | src/analysis/r5900_analysis_report.cpp:117-286 | The loops and sorts produce a report that counts every site and lists sorted permutations |
| Report.CountSite | src/analysis/r5900_analysis_report.cpp:91-113 | One site keeps all counters and histograms in agreement with the sites counted so far |
| Report.ReportIgnoresOrder | src/analysis/r5900_analysis_report.cpp:117-286 | Graphs with distinct starts that differ only in the order of blocks, edges, calls and issues have the same report |
| Report.AnalysisHasOneReport | src/analysis/r5900_analysis_report.cpp:117-286 | The graph of an analysis has exactly one report, although sorting leaves ties open |
| Report.TotalsAreConserved | src/analysis/r5900_analysis_report.cpp:127-167 | Decoded + unknown = instructions = histogram sum; unknown-opcode sum = unknown = listed unknown sites; call-site sum = resolved direct calls |
| ReportFacts.TotalsCountSites | src/analysis/r5900_analysis_report.cpp:127-152 | INSTRUCTIONS, DECODED and UNKNOWN count every instruction and every delay slot of the blocks |
| ReportFacts.HistogramCountsSites | src/analysis/r5900_analysis_report.cpp:98-102 | The histogram counts, for each instruction, the sites and delay slots that decode to it |
| ReportFacts.UnknownOpcodesAreCounted | src/analysis/r5900_analysis_report.cpp:104-109 | The unknown-opcode histogram counts the unknown sites by their top six bits |
| ReportFacts.UnknownSitesAreListed | src/analysis/r5900_analysis_report.cpp:104-109 | Every unknown site is listed, as often as it occurs |
| ReportFacts.CallsAreCounted | src/analysis/r5900_analysis_report.cpp:157-167 | CALL_SITES counts the direct calls of each target, INDIRECT_EXITS the unresolved exits |
| ReportFacts.ListsAreOrdered | src/analysis/r5900_analysis_report.cpp:117-270 | Blocks, unknown sites, calls and issues are listed in the order of their fields, absent values first |
| ReportFacts.BlocksAreListed | src/analysis/r5900_analysis_report.cpp:213-241 | Exactly the blocks of the graph are listed, each with its own contents and its edges sorted by kind, then target |

## Left out

- VirtualAlloc, VirtualProtect, FlushInstructionCache and the ownership of code pages: a compiled block is its byte sequence and allocation succeeds, so the compiler's three host errors do not occur.
- Allocation failure while building a memory map: storage is always available.
- IEEE-754 behaviour of ADDA.S and ADDSS: the addition is a parameter, and that the host's `float` addition and the ADDSS instruction agree, including NaN payloads and MXCSR modes, is an assumption built into using the same parameter on both sides.
- The text of error messages, the report's text layout and the instruction names: the model keeps error kinds and report records, and keys the instruction histogram by instruction; names are distinct in the source.
- Instruction indices and field details that validation attaches to its messages.
- The decoder's sub-tables return a classification where the source fills a record by reference: there is no aliasing to observe.
- `std::set`, `std::map`, `std::deque` and `std::sort` are a set, maps, a sequence and a sort by keys.
- Wrap-around of 64-bit counters (`instructions_executed`, block and instruction counts): the model's counters are unbounded.
- 32-bit hosts: `size_t` has 64 bits, which makes the overflow check of the program-header table dead.
- Execution of branches, delay slots, loads and stores: the source does not implement it; only their decode class, targets and boundary role are modelled.
- Values of enumerations outside their enumerators are one extra constructor each, so that the default branches of the validator are reachable.
- The x86-64 machine has only the registers, flag and encodings the emitter uses; other flags, instruction-cache effects and faults outside the state record are not modelled.
- Guest memory written while a run is in progress: the dispatcher holds it by constant reference, so it changes between runs only.
- The platform layer, debug logging, command-line tools, option parsers, frame pacing and statistics.
