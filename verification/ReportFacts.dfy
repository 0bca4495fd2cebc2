/** What the numbers and lists of a report mean for the graph it describes, block by
    block and call by call (src/analysis/r5900_analysis_report.cpp). */
module ReportFacts {
  import opened Words
  import opened Options
  import opened ControlFlow
  import opened Reachability
  import opened Sorting
  import opened Report
  import R = Report
  import D = Decoder

  // ---------------------------------------------------------------- counting

  function CountWhere<X>(p: X -> bool, xs: seq<X>): nat {
    if |xs| == 0 then 0 else CountWhere(p, xs[..|xs| - 1]) + (if p(xs[|xs| - 1]) then 1 else 0)
  }

  /** The instructions and delay slots of the blocks that satisfy p. */
  function SiteCount(p: Site -> bool, blocks: seq<BasicBlock>): nat {
    if |blocks| == 0 then 0
    else
      var b := blocks[|blocks| - 1];
      SiteCount(p, blocks[..|blocks| - 1]) + CountWhere(p, b.instructions) +
      (if b.ending.delaySlot.Some? && p(b.ending.delaySlot.value) then 1 else 0)
  }

  lemma {:induction false} CountConcat<X>(p: X -> bool, a: seq<X>, b: seq<X>)
    ensures CountWhere(p, a + b) == CountWhere(p, a) + CountWhere(p, b)
    decreases |b|
  {
    if |b| == 0 {
      assert a + b == a;
    } else {
      assert (a + b)[..|a + b| - 1] == a + b[..|b| - 1];
      CountConcat(p, a, b[..|b| - 1]);
    }
  }

  lemma CountOne<X>(p: X -> bool, x: X)
    ensures CountWhere(p, [x]) == if p(x) then 1 else 0
  {
    assert [x][..0] == [];
  }

  lemma {:induction false} SitesCounted(p: Site -> bool, blocks: seq<BasicBlock>)
    ensures CountWhere(p, FlatMap(BlockSites, blocks)) == SiteCount(p, blocks)
    decreases |blocks|
  {
    if |blocks| > 0 {
      var front, b := blocks[..|blocks| - 1], blocks[|blocks| - 1];
      SitesCounted(p, front);
      CountConcat(p, FlatMap(BlockSites, front), BlockSites(b));
      if b.ending.delaySlot.Some? {
        CountConcat(p, b.instructions, [b.ending.delaySlot.value]);
        CountOne(p, b.ending.delaySlot.value);
      } else {
        assert BlockSites(b) == b.instructions;
      }
    }
  }

  /** f gives at most one result, and gives y exactly where p holds. */
  ghost predicate Selects<X(!new), Y>(f: X -> seq<Y>, p: X -> bool, y: Y) {
    forall x :: |f(x)| <= 1 && (p(x) <==> f(x) == [y])
  }

  lemma {:induction false} FlatMapCounts<X(!new), Y>(f: X -> seq<Y>, p: X -> bool, y: Y, xs: seq<X>)
    requires Selects(f, p, y)
    ensures multiset(FlatMap(f, xs))[y] == CountWhere(p, xs)
    decreases |xs|
  {
    if |xs| > 0 {
      var x := xs[|xs| - 1];
      FlatMapCounts(f, p, y, xs[..|xs| - 1]);
      if |f(x)| == 1 {
        assert f(x) == [f(x)[0]];
      }
    }
  }

  lemma {:induction false} FlatMapLength<X(!new), Y>(f: X -> seq<Y>, p: X -> bool, xs: seq<X>)
    requires forall x :: |f(x)| == if p(x) then 1 else 0
    ensures |FlatMap(f, xs)| == CountWhere(p, xs)
    decreases |xs|
  {
    if |xs| > 0 {
      FlatMapLength(f, p, xs[..|xs| - 1]);
    }
  }

  function CountOf<K>(h: map<K, nat>, k: K): nat { if k in h then h[k] else 0 }

  lemma HistogramCount<K(!new)>(h: map<K, nat>, keys: seq<K>, k: K)
    requires IsHistogram(h, keys)
    ensures CountOf(h, k) == multiset(keys)[k]
  {
    assert k in keys <==> k in multiset(keys);
  }

  // ---------------------------------------------------------------- sites

  function AnySite(): Site -> bool { (s: Site) => true }

  function DecodesTo(i: D.Instruction): Site -> bool { (s: Site) => s.decoded.instruction == i }

  function DecodesToSome(): Site -> bool { (s: Site) => s.decoded.instruction != D.Unknown }

  function UnknownWithPrimary(primary: U8): Site -> bool {
    (s: Site) => s.decoded.instruction == D.Unknown && s.decoded.raw / 0x400_0000 == primary
  }

  function UnknownAt(pc: U32, raw: U32): Site -> bool {
    (s: Site) => s.decoded.instruction == D.Unknown && s.pc == pc && s.decoded.raw == raw
  }

  /** INSTRUCTIONS, DECODED and UNKNOWN count every instruction and every delay slot. */
  lemma TotalsCountSites(g: Graph, r: Report)
    requires IsReport(g, r)
    ensures r.instructions == SiteCount(AnySite(), g.blocks)
    ensures r.decoded == SiteCount(DecodesToSome(), g.blocks)
    ensures r.unknown == SiteCount(DecodesTo(D.Unknown), g.blocks)
  {
    hide IsHistogram, LexLess, CanonicalBlock, BlockSites;
    KeysAreUniform();
    var sites := FlatMap(BlockSites, g.blocks);
    SitesCounted(AnySite(), g.blocks);
    SitesCounted(DecodesToSome(), g.blocks);
    SitesCounted(DecodesTo(D.Unknown), g.blocks);
    AllCounted(sites);
    FlatMapLength(DecodedSite, DecodesToSome(), sites);
    FlatMapLength(UnknownSiteOf, DecodesTo(D.Unknown), sites);
  }

  lemma {:induction false} AllCounted(sites: seq<Site>)
    ensures CountWhere(AnySite(), sites) == |sites|
    decreases |sites|
  {
    if |sites| > 0 {
      AllCounted(sites[..|sites| - 1]);
    }
  }

  /** The instruction histogram counts the sites of each instruction. */
  lemma HistogramCountsSites(g: Graph, r: Report, i: D.Instruction)
    requires IsReport(g, r)
    ensures CountOf(r.instructionHistogram, i) == SiteCount(DecodesTo(i), g.blocks)
  {
    hide LexLess, CanonicalBlock, BlockSites, FlatMap, IsHistogram;
    KeysAreUniform();
    var sites := FlatMap(BlockSites, g.blocks);
    SitesCounted(DecodesTo(i), g.blocks);
    FlatMapCounts(InstructionOf, DecodesTo(i), i, sites);
    HistogramCount(r.instructionHistogram, FlatMap(InstructionOf, sites), i);
  }

  /** Each unknown site is listed as often as it occurs. */
  lemma UnknownSitesAreListed(g: Graph, r: Report, pc: U32, raw: U32)
    requires IsReport(g, r)
    ensures multiset(r.unknownSites)[UnknownSite(pc, raw)] == SiteCount(UnknownAt(pc, raw), g.blocks)
  {
    hide LexLess, CanonicalBlock, BlockSites, FlatMap, IsHistogram;
    KeysAreUniform();
    var sites := FlatMap(BlockSites, g.blocks);
    SitesCounted(UnknownAt(pc, raw), g.blocks);
    FlatMapCounts(UnknownSiteOf, UnknownAt(pc, raw), UnknownSite(pc, raw), sites);
  }

  function PrimaryIs(primary: U8): UnknownSite -> bool { (u: UnknownSite) => u.raw / 0x400_0000 == primary }

  lemma {:induction false} UnknownPrimaries(primary: U8, sites: seq<Site>)
    ensures CountWhere(PrimaryIs(primary), FlatMap(UnknownSiteOf, sites)) ==
            CountWhere(UnknownWithPrimary(primary), sites)
    decreases |sites|
  {
    if |sites| > 0 {
      var front, s := sites[..|sites| - 1], sites[|sites| - 1];
      UnknownPrimaries(primary, front);
      CountConcat(PrimaryIs(primary), FlatMap(UnknownSiteOf, front), UnknownSiteOf(s));
      if s.decoded.instruction == D.Unknown {
        CountOne(PrimaryIs(primary), UnknownSite(s.pc, s.decoded.raw));
      }
    }
  }

  /** The unknown-opcode histogram counts the unknown sites by their top six bits. */
  lemma UnknownOpcodesAreCounted(g: Graph, r: Report, primary: U8)
    requires IsReport(g, r)
    ensures CountOf(r.unknownPrimaries, primary) == SiteCount(UnknownWithPrimary(primary), g.blocks)
  {
    hide LexLess, CanonicalBlock, BlockSites, FlatMap, IsHistogram, UnknownSiteOf;
    KeysAreUniform();
    var sites := FlatMap(BlockSites, g.blocks);
    var unknown := FlatMap(UnknownSiteOf, sites);
    SitesCounted(UnknownWithPrimary(primary), g.blocks);
    UnknownPrimaries(primary, sites);
    PrimarySelects(primary);
    FlatMapCounts(PrimaryOf, PrimaryIs(primary), primary, unknown);
    HistogramCount(r.unknownPrimaries, FlatMap(PrimaryOf, unknown), primary);
  }

  lemma PrimarySelects(primary: U8)
    ensures Selects(PrimaryOf, PrimaryIs(primary), primary)
  {
    forall u: UnknownSite
      ensures |PrimaryOf(u)| <= 1 && (PrimaryIs(primary)(u) <==> PrimaryOf(u) == [primary])
    {
      assert PrimaryOf(u)[0] == u.raw / 0x400_0000;
    }
  }

  // ---------------------------------------------------------------- calls and issues

  function DirectlyCalls(t: U32): Call -> bool { (c: Call) => !c.indirect && c.target == Some(t) }

  function IsUnresolved(): Issue -> bool { (i: Issue) => i.kind == UnresolvedIndirectExit }

  /** CALL_SITES counts the direct calls of each target; INDIRECT_EXITS counts the
      unresolved exits. */
  lemma CallsAreCounted(g: Graph, r: Report, t: U32)
    requires IsReport(g, r)
    ensures CountOf(r.directCallTargets, t) == CountWhere(DirectlyCalls(t), g.calls)
    ensures r.indirectExits == CountWhere(IsUnresolved(), g.issues)
  {
    hide LexLess, CanonicalBlock, BlockSites, FlatMap, IsHistogram;
    KeysAreUniform();
    FlatMapCounts(ResolvedTarget, DirectlyCalls(t), t, g.calls);
    HistogramCount(r.directCallTargets, FlatMap(ResolvedTarget, g.calls), t);
    FlatMapLength(IndirectExitOf, IsUnresolved(), g.issues);
  }

  // ---------------------------------------------------------------- order

  predicate OptionBefore(a: Option<U32>, b: Option<U32>) {
    a.None? || (b.Some? && a.value <= b.value)
  }

  /** Enumerators are ranked in the order of their declaration. */
  lemma DeclarationOrder()
    ensures EdgeOrdinal(BranchTaken) < EdgeOrdinal(BranchNotTaken) < EdgeOrdinal(DirectJumpEdge) <
            EdgeOrdinal(DirectCallEdge) < EdgeOrdinal(CallContinuation) < EdgeOrdinal(IndirectJumpEdge) <
            EdgeOrdinal(IndirectCallEdge) < EdgeOrdinal(Fallthrough)
    ensures IssueOrdinal(UnresolvedIndirectExit) < IssueOrdinal(TargetAnalysisFailed) <
            IssueOrdinal(BlockLimitReached) < IssueOrdinal(LeaderInsideBlock) < IssueOrdinal(LeaderInsideDelaySlot)
    ensures ErrorOrdinal(None) < ErrorOrdinal(Some(InvalidInstructionLimit)) < ErrorOrdinal(Some(UnalignedStart)) <
            ErrorOrdinal(Some(UnmappedInstruction)) < ErrorOrdinal(Some(NonExecutableInstruction)) <
            ErrorOrdinal(Some(MissingDelaySlot)) < ErrorOrdinal(Some(NonExecutableDelaySlot))
  {
  }

  predicate EdgeBefore(a: Edge, b: Edge) {
    EdgeOrdinal(a.kind) < EdgeOrdinal(b.kind) || (a.kind == b.kind && OptionBefore(a.target, b.target))
  }

  predicate CallBefore(a: Call, b: Call) {
    if a.sourceBlock != b.sourceBlock then a.sourceBlock < b.sourceBlock
    else if a.callPc != b.callPc then a.callPc < b.callPc
    else if a.indirect != b.indirect then b.indirect
    else OptionBefore(a.target, b.target)
  }

  predicate IssueBefore(a: Issue, b: Issue) {
    if a.kind != b.kind then IssueOrdinal(a.kind) < IssueOrdinal(b.kind)
    else if a.sourceBlock != b.sourceBlock then a.sourceBlock < b.sourceBlock
    else if a.target != b.target then OptionBefore(a.target, b.target)
    else if a.relatedBlock != b.relatedBlock then OptionBefore(a.relatedBlock, b.relatedBlock)
    else ErrorOrdinal(a.analysisError) <= ErrorOrdinal(b.analysisError)
  }

  lemma EdgeKeyOrder(a: Edge, b: Edge)
    requires !LexLess(EdgeKey(b), EdgeKey(a))
    ensures EdgeBefore(a, b)
  {
    assert EdgeKey(a)[1..][0] == OptionKey(a.target) && EdgeKey(b)[1..][0] == OptionKey(b.target);
    assert EdgeKey(a)[0] == EdgeOrdinal(a.kind) && EdgeKey(b)[0] == EdgeOrdinal(b.kind);
  }

  /** A key whose first field decides, or whose rest does. */
  lemma LexStep(a: seq<int>, b: seq<int>, x: int, y: int, a': seq<int>, b': seq<int>)
    requires |a'| == |b'| && a == [x] + a' && b == [y] + b'
    ensures LexLess(a, b) <==> x < y || (x == y && LexLess(a', b'))
  {
    assert a[1..] == a' && b[1..] == b';
  }

  lemma LexEmpty()
    ensures !LexLess([], [])
  {
  }

  lemma CallKeyOrder(a: Call, b: Call)
    requires !LexLess(CallKey(b), CallKey(a))
    ensures CallBefore(a, b)
  {
    hide LexLess;
    var x, y := CallKey(b), CallKey(a);
    LexStep(x, y, x[0], y[0], x[1..], y[1..]);
    LexStep(x[1..], y[1..], x[1], y[1], x[2..], y[2..]);
    LexStep(x[2..], y[2..], x[2], y[2], x[3..], y[3..]);
    LexStep(x[3..], y[3..], x[3], y[3], x[4..], y[4..]);
  }

  lemma IssueKeyOrder(a: Issue, b: Issue)
    requires !LexLess(R.IssueKey(b), R.IssueKey(a))
    ensures IssueBefore(a, b)
  {
    hide LexLess;
    var x, y := R.IssueKey(b), R.IssueKey(a);
    LexStep(x, y, x[0], y[0], x[1..], y[1..]);
    LexStep(x[1..], y[1..], x[1], y[1], x[2..], y[2..]);
    LexStep(x[2..], y[2..], x[2], y[2], x[3..], y[3..]);
    LexStep(x[3..], y[3..], x[3], y[3], x[4..], y[4..]);
    LexStep(x[4..], y[4..], x[4], y[4], x[5..], y[5..]);
  }

  /** The lists of a report are in order: blocks by start PC; unknown sites by PC, then
      word; calls by block, call PC, direct before indirect, then target; issues by kind,
      block, target, related block, then error; an absent value comes first. */
  lemma ListsAreOrdered(g: Graph, r: Report, i: nat, j: nat)
    requires IsReport(g, r) && i < j
    ensures j < |r.blocks| ==> r.blocks[i].startPc <= r.blocks[j].startPc
    ensures j < |r.unknownSites| ==>
              var a, b := r.unknownSites[i], r.unknownSites[j]; a.pc < b.pc || (a.pc == b.pc && a.raw <= b.raw)
    ensures j < |r.calls| ==> CallBefore(r.calls[i], r.calls[j])
    ensures j < |r.issues| ==> IssueBefore(r.issues[i], r.issues[j])
  {
    hide CanonicalBlock, BlockSites, FlatMap, IsHistogram, CallBefore, IssueBefore, LexLess, CallKey, R.IssueKey;
    KeysAreUniform();
    if j < |r.blocks| {
      BlockKeyOrder(r.blocks[i], r.blocks[j]);
    }
    if j < |r.unknownSites| {
      SiteKeyOrder(r.unknownSites[i], r.unknownSites[j]);
    }
    if j < |r.calls| {
      CallKeyOrder(r.calls[i], r.calls[j]);
    }
    if j < |r.issues| {
      IssueKeyOrder(r.issues[i], r.issues[j]);
    }
  }

  lemma BlockKeyOrder(a: BasicBlock, b: BasicBlock)
    requires !LexLess(BlockKey(b), BlockKey(a))
    ensures a.startPc <= b.startPc
  {
    assert BlockKey(a)[0] == a.startPc && BlockKey(b)[0] == b.startPc;
  }

  lemma SiteKeyOrder(a: UnknownSite, b: UnknownSite)
    requires !LexLess(SiteKey(b), SiteKey(a))
    ensures a.pc < b.pc || (a.pc == b.pc && a.raw <= b.raw)
  {
    hide LexLess;
    var x, y := SiteKey(b), SiteKey(a);
    LexStep(x, y, x[0], y[0], x[1..], y[1..]);
    LexStep(x[1..], y[1..], x[1], y[1], x[2..], y[2..]);
  }

  // ---------------------------------------------------------------- listed blocks

  /** A block as listed: unchanged but for its edges, which are sorted by kind, then
      target. */
  ghost predicate ListedAs(b: BasicBlock, listed: BasicBlock) {
    && listed.startPc == b.startPc && listed.instructions == b.instructions
    && listed.ending.delaySlot == b.ending.delaySlot && listed.ending.endKind == b.ending.endKind
    && listed.ending.delaySlotExecutesOnFallthrough == b.ending.delaySlotExecutesOnFallthrough
    && multiset(listed.ending.edges) == multiset(b.ending.edges)
    && forall i, j :: 0 <= i < j < |listed.ending.edges| ==> EdgeBefore(listed.ending.edges[i], listed.ending.edges[j])
  }

  lemma CanonicalIsListed(b: BasicBlock)
    ensures |CanonicalBlock(b)| == 1 && ListedAs(b, CanonicalBlock(b)[0])
  {
    hide LexLess, Sort, EdgeBefore, EdgeKey;
    KeysAreUniform();
    var edges := CanonicalBlock(b)[0].ending.edges;
    forall i, j | 0 <= i < j < |edges|
      ensures EdgeBefore(edges[i], edges[j])
    {
      EdgeKeyOrder(edges[i], edges[j]);
    }
  }

  /** Every listed block is a block of the graph and every block of the graph is listed. */
  lemma BlocksAreListed(g: Graph, r: Report)
    requires IsReport(g, r)
    ensures |r.blocks| == |g.blocks|
    ensures forall x :: x in r.blocks ==> exists b :: b in g.blocks && ListedAs(b, x)
    ensures forall b :: b in g.blocks ==> exists x :: x in r.blocks && ListedAs(b, x)
  {
    hide LexLess, BlockSites, IsHistogram, CanonicalBlock, ListedAs, FlatMap, BlockKey;
    KeysAreUniform();
    var listed := FlatMap(CanonicalBlock, g.blocks);
    ListingLength(g.blocks);
    PermutationLength(r.blocks, listed);
    forall x | x in r.blocks
      ensures exists b :: b in g.blocks && ListedAs(b, x)
    {
      assert x in multiset(r.blocks);
      assert x in listed;
      var b := ListedOrigin(g.blocks, x);
      CanonicalIsListed(b);
      assert CanonicalBlock(b)[0] == x;
    }
    forall b | b in g.blocks
      ensures exists x :: x in r.blocks && ListedAs(b, x)
    {
      CanonicalIsListed(b);
      var x := CanonicalBlock(b)[0];
      ListedMember(g.blocks, b);
      assert x in multiset(listed);
      assert x in multiset(r.blocks);
    }
  }

  lemma {:induction false} ListedMember(blocks: seq<BasicBlock>, b: BasicBlock)
    requires b in blocks && |CanonicalBlock(b)| == 1
    ensures CanonicalBlock(b)[0] in FlatMap(CanonicalBlock, blocks)
    decreases |blocks|
  {
    hide CanonicalBlock;
    if b == blocks[|blocks| - 1] {
      assert CanonicalBlock(b)[0] in CanonicalBlock(b);
    } else {
      ListedMember(blocks[..|blocks| - 1], b);
    }
  }

  /** The other entries of a report. */
  lemma HeadlineMeans(g: Graph, r: Report)
    requires IsReport(g, r)
    ensures r.entryPc == g.entryPc && r.blockCount == |g.blocks| && r.callCount == |g.calls|
    ensures r.issueCount == |g.issues|
    ensures multiset(r.calls) == multiset(g.calls) && multiset(r.issues) == multiset(g.issues)
  {
    hide LexLess, BlockSites, IsHistogram, CanonicalBlock, FlatMap;
    KeysAreUniform();
  }
}
