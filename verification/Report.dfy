/** The analysis report (src/analysis/r5900_analysis_report.cpp) as a record: its
    totals, histograms and sorted lists. */
module Report {
  import opened Words
  import opened Options
  import opened MemoryMap
  import opened ControlFlow
  import opened Reachability
  import opened ReachabilityFacts
  import opened Sorting
  import D = Decoder

  datatype UnknownSite = UnknownSite(pc: U32, raw: U32)

  datatype Report = Report(
    entryPc: U32,
    blockCount: nat,
    instructions: nat,
    decoded: nat,
    unknown: nat,
    callCount: nat,
    indirectExits: nat,
    issueCount: nat,
    instructionHistogram: map<D.Instruction, nat>,
    unknownPrimaries: map<U8, nat>,
    unknownSites: seq<UnknownSite>,
    directCallTargets: map<U32, nat>,
    blocks: seq<BasicBlock>,
    calls: seq<Call>,
    issues: seq<Issue>)

  // ---------------------------------------------------------------- sort keys

  /** Enumerators and optional values compare by their declaration order; an absent
      value comes first. */
  function OptionKey(o: Option<U32>): int { if o.None? then -1 else o.value }

  function EdgeOrdinal(k: EdgeKind): int {
    match k
    case BranchTaken => 0
    case BranchNotTaken => 1
    case DirectJumpEdge => 2
    case DirectCallEdge => 3
    case CallContinuation => 4
    case IndirectJumpEdge => 5
    case IndirectCallEdge => 6
    case Fallthrough => 7
  }

  function IssueOrdinal(k: IssueKind): int {
    match k
    case UnresolvedIndirectExit => 0
    case TargetAnalysisFailed => 1
    case BlockLimitReached => 2
    case LeaderInsideBlock => 3
    case LeaderInsideDelaySlot => 4
  }

  function ErrorOrdinal(e: Option<ControlFlowError>): int {
    match e
    case None => 0
    case Some(InvalidInstructionLimit) => 1
    case Some(UnalignedStart) => 2
    case Some(UnmappedInstruction) => 3
    case Some(NonExecutableInstruction) => 4
    case Some(MissingDelaySlot) => 5
    case Some(NonExecutableDelaySlot) => 6
  }

  function BlockKey(b: BasicBlock): seq<int> { [b.startPc] }

  function SiteKey(u: UnknownSite): seq<int> { [u.pc, u.raw] }

  function EdgeKey(e: Edge): seq<int> { [EdgeOrdinal(e.kind), OptionKey(e.target)] }

  function CallKey(c: Call): seq<int> {
    [c.sourceBlock, c.callPc, if c.indirect then 1 else 0, OptionKey(c.target)]
  }

  function IssueKey(i: Issue): seq<int> {
    [IssueOrdinal(i.kind), i.sourceBlock, OptionKey(i.target), OptionKey(i.relatedBlock), ErrorOrdinal(i.analysisError)]
  }

  lemma KeysAreUniform()
    ensures Uniform(BlockKey, 1) && Uniform(SiteKey, 2) && Uniform(EdgeKey, 2) && Uniform(CallKey, 4) &&
            Uniform(IssueKey, 5)
  {
  }

  lemma EdgeKeysIdentify(a: Edge, b: Edge)
    requires EdgeKey(a) == EdgeKey(b)
    ensures a == b
  {
    assert EdgeKey(a)[0] == EdgeKey(b)[0] && EdgeKey(a)[1] == EdgeKey(b)[1];
  }

  lemma SiteKeysIdentify(a: UnknownSite, b: UnknownSite)
    requires SiteKey(a) == SiteKey(b)
    ensures a == b
  {
    assert SiteKey(a)[0] == SiteKey(b)[0] && SiteKey(a)[1] == SiteKey(b)[1];
  }

  lemma CallKeysIdentify(a: Call, b: Call)
    requires CallKey(a) == CallKey(b)
    ensures a == b
  {
    assert CallKey(a)[0] == CallKey(b)[0] && CallKey(a)[1] == CallKey(b)[1] && CallKey(a)[2] == CallKey(b)[2] &&
           CallKey(a)[3] == CallKey(b)[3];
  }

  lemma IssueKeysIdentify(a: Issue, b: Issue)
    requires IssueKey(a) == IssueKey(b)
    ensures a == b
  {
    assert IssueKey(a)[0] == IssueKey(b)[0] && IssueKey(a)[1] == IssueKey(b)[1] && IssueKey(a)[2] == IssueKey(b)[2] &&
           IssueKey(a)[3] == IssueKey(b)[3] && IssueKey(a)[4] == IssueKey(b)[4];
  }

  // ---------------------------------------------------------------- what is counted

  function BlockSites(b: BasicBlock): seq<Site> {
    b.instructions + (if b.ending.delaySlot.Some? then [b.ending.delaySlot.value] else [])
  }

  function DecodedSite(s: Site): seq<Site> { if s.decoded.instruction == D.Unknown then [] else [s] }

  function UnknownSiteOf(s: Site): seq<UnknownSite> {
    if s.decoded.instruction == D.Unknown then [UnknownSite(s.pc, s.decoded.raw)] else []
  }

  function InstructionOf(s: Site): seq<D.Instruction> { [s.decoded.instruction] }

  function PrimaryOf(u: UnknownSite): seq<U8> { [D.Primary(u.raw)] }

  function ResolvedTarget(c: Call): seq<U32> {
    if !c.indirect && c.target.Some? then [c.target.value] else []
  }

  function IndirectExitOf(i: Issue): seq<Issue> { if i.kind == UnresolvedIndirectExit then [i] else [] }

  function CanonicalBlock(b: BasicBlock): seq<BasicBlock> {
    KeysAreUniform();
    [b.(ending := b.ending.(edges := Sort(EdgeKey, 2, b.ending.edges)))]
  }

  /** What the report of a graph says. */
  ghost predicate IsReport(g: Graph, r: Report) {
    KeysAreUniform();
    var sites := FlatMap(BlockSites, g.blocks);
    var unknown := FlatMap(UnknownSiteOf, sites);
    && r.entryPc == g.entryPc
    && r.blockCount == |g.blocks| && r.callCount == |g.calls| && r.issueCount == |g.issues|
    && r.instructions == |sites| && r.decoded == |FlatMap(DecodedSite, sites)| && r.unknown == |unknown|
    && r.indirectExits == |FlatMap(IndirectExitOf, g.issues)|
    && IsHistogram(r.instructionHistogram, FlatMap(InstructionOf, sites))
    && IsHistogram(r.unknownPrimaries, FlatMap(PrimaryOf, unknown))
    && IsHistogram(r.directCallTargets, FlatMap(ResolvedTarget, g.calls))
    && IsSortOf(SiteKey, 2, r.unknownSites, unknown)
    && IsSortOf(BlockKey, 1, r.blocks, FlatMap(CanonicalBlock, g.blocks))
    && IsSortOf(CallKey, 4, r.calls, g.calls)
    && IsSortOf(IssueKey, 5, r.issues, g.issues)
  }

  // ---------------------------------------------------------------- rendering

  datatype Counts = Counts(
    instructions: nat,
    decoded: nat,
    unknown: nat,
    histogram: map<D.Instruction, nat>,
    primaries: map<U8, nat>,
    unknownSites: seq<UnknownSite>)

  ghost predicate Counted(c: Counts, sites: seq<Site>) {
    && c.instructions == |sites| && c.decoded == |FlatMap(DecodedSite, sites)|
    && c.unknownSites == FlatMap(UnknownSiteOf, sites) && c.unknown == |c.unknownSites|
    && IsHistogram(c.histogram, FlatMap(InstructionOf, sites))
    && IsHistogram(c.primaries, FlatMap(PrimaryOf, c.unknownSites))
  }

  lemma FlatMapSnoc<X, Y>(f: X -> seq<Y>, xs: seq<X>, x: X)
    ensures FlatMap(f, xs + [x]) == FlatMap(f, xs) + f(x)
  {
    assert (xs + [x])[..|xs|] == xs;
  }

  /** count_site. */
  method CountSite(site: Site, c: Counts, ghost sites: seq<Site>) returns (c': Counts)
    requires Counted(c, sites)
    ensures Counted(c', sites + [site])
  {
    hide FlatMap, IsHistogram, Bump;
    FlatMapSnoc(DecodedSite, sites, site);
    FlatMapSnoc(UnknownSiteOf, sites, site);
    FlatMapSnoc(InstructionOf, sites, site);
    BumpCounts(c.histogram, FlatMap(InstructionOf, sites), site.decoded.instruction);
    c' := c.(instructions := c.instructions + 1, histogram := Bump(c.histogram, site.decoded.instruction));
    if site.decoded.instruction == D.Unknown {
      var u := UnknownSite(site.pc, site.decoded.raw);
      FlatMapSnoc(PrimaryOf, c.unknownSites, u);
      BumpCounts(c.primaries, FlatMap(PrimaryOf, c.unknownSites), D.Primary(site.decoded.raw));
      c' := c'.(unknown := c.unknown + 1, primaries := Bump(c.primaries, D.Primary(site.decoded.raw)),
                unknownSites := c.unknownSites + [u]);
    } else {
      c' := c'.(decoded := c.decoded + 1);
    }
  }

  method CountBlocks(blocks: seq<BasicBlock>) returns (c: Counts)
    ensures Counted(c, FlatMap(BlockSites, blocks))
  {
    hide Counted, FlatMap;
    c := Counts(0, 0, 0, map[], map[], []);
    ghost var sites: seq<Site> := [];
    NothingCounted(blocks);
    for i := 0 to |blocks|
      invariant sites == FlatMap(BlockSites, blocks[..i]) && Counted(c, sites)
    {
      var b := blocks[i];
      ghost var before := sites;
      for j := 0 to |b.instructions|
        invariant sites == before + b.instructions[..j] && Counted(c, sites)
      {
        c := CountSite(b.instructions[j], c, sites);
        sites := sites + [b.instructions[j]];
      }
      assert b.instructions[..|b.instructions|] == b.instructions;
      if b.ending.delaySlot.Some? {
        c := CountSite(b.ending.delaySlot.value, c, sites);
        sites := sites + [b.ending.delaySlot.value];
      }
      FlatMapSnoc(BlockSites, blocks[..i], b);
      assert blocks[..i + 1] == blocks[..i] + [b];
    }
    assert blocks[..|blocks|] == blocks;
  }

  lemma NothingCounted(blocks: seq<BasicBlock>)
    ensures FlatMap(BlockSites, blocks[..0]) == [] && Counted(Counts(0, 0, 0, map[], map[], []), [])
  {
  }

  method CountTargets(calls: seq<Call>) returns (h: map<U32, nat>)
    ensures IsHistogram(h, FlatMap(ResolvedTarget, calls))
  {
    hide FlatMap, IsHistogram, Bump;
    h := map[];
    assert IsHistogram(h, FlatMap(ResolvedTarget, calls[..0])) by {
      EmptyHistogram(calls);
    }
    for i := 0 to |calls|
      invariant IsHistogram(h, FlatMap(ResolvedTarget, calls[..i]))
    {
      FlatMapSnoc(ResolvedTarget, calls[..i], calls[i]);
      assert calls[..i + 1] == calls[..i] + [calls[i]];
      if !calls[i].indirect && calls[i].target.Some? {
        BumpCounts(h, FlatMap(ResolvedTarget, calls[..i]), calls[i].target.value);
        h := Bump(h, calls[i].target.value);
      } else {
        assert ResolvedTarget(calls[i]) == [];
        assert FlatMap(ResolvedTarget, calls[..i]) + [] == FlatMap(ResolvedTarget, calls[..i]);
      }
    }
    assert calls[..|calls|] == calls;
  }

  lemma EmptyHistogram(calls: seq<Call>)
    ensures IsHistogram(map[], FlatMap(ResolvedTarget, calls[..0]))
  {
  }

  method CountIndirectExits(issues: seq<Issue>) returns (n: nat)
    ensures n == |FlatMap(IndirectExitOf, issues)|
  {
    n := 0;
    for i := 0 to |issues|
      invariant n == |FlatMap(IndirectExitOf, issues[..i])|
    {
      FlatMapSnoc(IndirectExitOf, issues[..i], issues[i]);
      assert issues[..i + 1] == issues[..i] + [issues[i]];
      if issues[i].kind == UnresolvedIndirectExit {
        n := n + 1;
      }
    }
    assert issues[..|issues|] == issues;
  }

  /** The blocks as listed: their edges sorted. */
  method ListBlocks(blocks: seq<BasicBlock>) returns (listed: seq<BasicBlock>)
    ensures listed == FlatMap(CanonicalBlock, blocks) && |listed| == |blocks|
    ensures forall i :: 0 <= i < |blocks| ==> listed[i].startPc == blocks[i].startPc
  {
    hide FlatMap, Sort;
    KeysAreUniform();
    listed := [];
    assert FlatMap(CanonicalBlock, blocks[..0]) == [] by {
      NothingListed(blocks);
    }
    for i := 0 to |blocks|
      invariant listed == FlatMap(CanonicalBlock, blocks[..i]) && |listed| == i
      invariant forall k :: 0 <= k < i ==> listed[k].startPc == blocks[k].startPc
    {
      FlatMapSnoc(CanonicalBlock, blocks[..i], blocks[i]);
      assert blocks[..i + 1] == blocks[..i] + [blocks[i]];
      var edges := Sort(EdgeKey, 2, blocks[i].ending.edges);
      listed := listed + [blocks[i].(ending := blocks[i].ending.(edges := edges))];
    }
    assert blocks[..|blocks|] == blocks;
  }

  lemma NothingListed(blocks: seq<BasicBlock>)
    ensures FlatMap(CanonicalBlock, blocks[..0]) == []
  {
  }

  /** render_r5900_analysis_report. */
  method RenderReport(g: Graph) returns (r: Report)
    ensures IsReport(g, r)
  {
    hide FlatMap, Sort, IsHistogram, LexLess;
    KeysAreUniform();
    var blocks := Sort(BlockKey, 1, g.blocks);
    var c := CountBlocks(blocks);
    var unknownSites := Sort(SiteKey, 2, c.unknownSites);
    var targets := CountTargets(g.calls);
    var exits := CountIndirectExits(g.issues);
    var listed := ListBlocks(blocks);
    var calls := Sort(CallKey, 4, g.calls);
    var issues := Sort(IssueKey, 5, g.issues);
    SortedBlocksCount(g.blocks, blocks, c);
    ListedSorted(blocks, listed);
    FlatMapPermutes(CanonicalBlock, blocks, g.blocks);
    r := Report(g.entryPc, |g.blocks|, c.instructions, c.decoded, c.unknown, |g.calls|, exits, |g.issues|,
                c.histogram, c.primaries, unknownSites, targets, listed, calls, issues);
  }

  lemma ListedSorted(blocks: seq<BasicBlock>, listed: seq<BasicBlock>)
    requires Uniform(BlockKey, 1) && SortedBy(BlockKey, 1, blocks) && |listed| == |blocks|
    requires forall i :: 0 <= i < |blocks| ==> listed[i].startPc == blocks[i].startPc
    ensures SortedBy(BlockKey, 1, listed)
  {
    hide LexLess;
    forall i, j | 0 <= i < j < |listed|
      ensures !LexLess(BlockKey(listed[j]), BlockKey(listed[i]))
    {
      assert BlockKey(listed[j]) == BlockKey(blocks[j]) && BlockKey(listed[i]) == BlockKey(blocks[i]);
    }
  }

  /** The totals and the multisets of counted sites do not depend on the order of
      the blocks. */
  lemma SortedBlocksCount(blocks: seq<BasicBlock>, sorted: seq<BasicBlock>, c: Counts)
    requires multiset(sorted) == multiset(blocks) && Counted(c, FlatMap(BlockSites, sorted))
    ensures var sites := FlatMap(BlockSites, blocks);
            var unknown := FlatMap(UnknownSiteOf, sites);
            && c.instructions == |sites| && c.decoded == |FlatMap(DecodedSite, sites)| && c.unknown == |unknown|
            && multiset(c.unknownSites) == multiset(unknown)
            && IsHistogram(c.histogram, FlatMap(InstructionOf, sites))
            && IsHistogram(c.primaries, FlatMap(PrimaryOf, unknown))
  {
    hide FlatMap, IsHistogram;
    var sites, sites' := FlatMap(BlockSites, blocks), FlatMap(BlockSites, sorted);
    var unknown := FlatMap(UnknownSiteOf, sites);
    FlatMapPermutes(BlockSites, sorted, blocks);
    FlatMapPermutes(DecodedSite, sites', sites);
    FlatMapPermutes(UnknownSiteOf, sites', sites);
    FlatMapPermutes(InstructionOf, sites', sites);
    FlatMapPermutes(PrimaryOf, c.unknownSites, unknown);
    PermutationLength(sites', sites);
    PermutationLength(FlatMap(DecodedSite, sites'), FlatMap(DecodedSite, sites));
    PermutationLength(c.unknownSites, unknown);
    HistogramPermutes(c.histogram, FlatMap(InstructionOf, sites'), FlatMap(InstructionOf, sites));
    HistogramPermutes(c.primaries, FlatMap(PrimaryOf, c.unknownSites), FlatMap(PrimaryOf, unknown));
  }

  // ---------------------------------------------------------------- order independence

  predicate SameUpToEdgeOrder(a: BasicBlock, b: BasicBlock) {
    && a.(ending := a.ending.(edges := [])) == b.(ending := b.ending.(edges := []))
    && multiset(a.ending.edges) == multiset(b.ending.edges)
  }

  predicate SameBlockwise(a: seq<BasicBlock>, b: seq<BasicBlock>) {
    |a| == |b| && forall i :: 0 <= i < |a| ==> SameUpToEdgeOrder(a[i], b[i])
  }

  /** Two graphs that differ only in the order of blocks, edges, calls and issues. */
  ghost predicate SameUpToOrder(g: Graph, g': Graph) {
    && g.entryPc == g'.entryPc && multiset(g.calls) == multiset(g'.calls) && multiset(g.issues) == multiset(g'.issues)
    && exists permuted: seq<BasicBlock> ::
         multiset(permuted) == multiset(g.blocks) && SameBlockwise(permuted, g'.blocks)
  }

  lemma CanonicalIgnoresEdgeOrder(a: BasicBlock, b: BasicBlock)
    requires SameUpToEdgeOrder(a, b)
    ensures CanonicalBlock(a) == CanonicalBlock(b) && BlockSites(a) == BlockSites(b)
  {
    hide Sort, LexLess, EdgeKey;
    KeysAreUniform();
    var x, y := Sort(EdgeKey, 2, a.ending.edges), Sort(EdgeKey, 2, b.ending.edges);
    forall e, f | e in x && f in x && EdgeKey(e) == EdgeKey(f)
      ensures e == f
    {
      EdgeKeysIdentify(e, f);
    }
    SortIsUnique(EdgeKey, 2, x, y);
  }

  lemma {:induction false} BlockwiseSame(a: seq<BasicBlock>, b: seq<BasicBlock>)
    requires SameBlockwise(a, b)
    ensures FlatMap(CanonicalBlock, a) == FlatMap(CanonicalBlock, b) && FlatMap(BlockSites, a) == FlatMap(BlockSites, b)
    decreases |a|
  {
    hide SameUpToEdgeOrder, CanonicalBlock, BlockSites;
    if |a| > 0 {
      BlockwiseSame(a[..|a| - 1], b[..|b| - 1]);
      CanonicalIgnoresEdgeOrder(a[|a| - 1], b[|b| - 1]);
    }
  }

  lemma {:induction false} ListedOrigin(blocks: seq<BasicBlock>, x: BasicBlock) returns (b: BasicBlock)
    requires x in FlatMap(CanonicalBlock, blocks)
    ensures b in blocks && CanonicalBlock(b) == [x] && b.startPc == x.startPc
    decreases |blocks|
  {
    hide Sort;
    var last := |blocks| - 1;
    if x in FlatMap(CanonicalBlock, blocks[..last]) {
      b := ListedOrigin(blocks[..last], x);
    } else {
      b := blocks[last];
    }
  }

  lemma ListedKeysIdentify(blocks: seq<BasicBlock>, x: BasicBlock, y: BasicBlock)
    requires DistinctStarts(blocks) && BlockKey(x) == BlockKey(y)
    requires x in FlatMap(CanonicalBlock, blocks) && y in FlatMap(CanonicalBlock, blocks)
    ensures x == y
  {
    hide CanonicalBlock, FlatMap;
    var a := ListedOrigin(blocks, x);
    var b := ListedOrigin(blocks, y);
    assert BlockKey(x)[0] == BlockKey(y)[0];
    assert a == b;
    assert [x][0] == [y][0];
  }

  /** The listed blocks of two graphs that differ only in order. */
  lemma SameListing(g: Graph, g': Graph, r: Report, r': Report)
    requires DistinctStarts(g.blocks) && SameUpToOrder(g, g') && IsReport(g, r) && IsReport(g', r')
    ensures multiset(FlatMap(BlockSites, g.blocks)) == multiset(FlatMap(BlockSites, g'.blocks))
    ensures r.blocks == r'.blocks && r.blockCount == r'.blockCount
  {
    hide FlatMap, CanonicalBlock, BlockSites, LexLess, IsHistogram, SameUpToEdgeOrder, BlockKey, DistinctStarts;
    KeysAreUniform();
    var permuted: seq<BasicBlock> :| multiset(permuted) == multiset(g.blocks) && SameBlockwise(permuted, g'.blocks);
    PermutationLength(permuted, g.blocks);
    BlockwiseSame(permuted, g'.blocks);
    FlatMapPermutes(CanonicalBlock, permuted, g.blocks);
    FlatMapPermutes(BlockSites, permuted, g.blocks);
    forall x, y | x in r.blocks && y in r.blocks && BlockKey(x) == BlockKey(y)
      ensures x == y
    {
      assert x in multiset(r.blocks) && y in multiset(r.blocks);
      ListedKeysIdentify(g.blocks, x, y);
    }
    SortIsUnique(BlockKey, 1, r.blocks, r'.blocks);
  }

  lemma SameCounts(g: Graph, g': Graph, r: Report, r': Report)
    requires multiset(FlatMap(BlockSites, g.blocks)) == multiset(FlatMap(BlockSites, g'.blocks))
    requires IsReport(g, r) && IsReport(g', r')
    ensures r.instructions == r'.instructions && r.decoded == r'.decoded && r.unknown == r'.unknown
    ensures r.instructionHistogram == r'.instructionHistogram && r.unknownPrimaries == r'.unknownPrimaries
    ensures r.unknownSites == r'.unknownSites
  {
    hide FlatMap, CanonicalBlock, BlockSites, LexLess, IsHistogram, SiteKey, UnknownSiteOf, DecodedSite;
    KeysAreUniform();
    var sites, sites' := FlatMap(BlockSites, g.blocks), FlatMap(BlockSites, g'.blocks);
    var unknown, unknown' := FlatMap(UnknownSiteOf, sites), FlatMap(UnknownSiteOf, sites');
    PermutationLength(sites, sites');
    FlatMapPermutes(DecodedSite, sites, sites');
    PermutationLength(FlatMap(DecodedSite, sites), FlatMap(DecodedSite, sites'));
    FlatMapPermutes(UnknownSiteOf, sites, sites');
    PermutationLength(unknown, unknown');
    FlatMapPermutes(InstructionOf, sites, sites');
    FlatMapPermutes(PrimaryOf, unknown, unknown');
    HistogramIsUnique(r.instructionHistogram, r'.instructionHistogram, FlatMap(InstructionOf, sites),
                      FlatMap(InstructionOf, sites'));
    HistogramIsUnique(r.unknownPrimaries, r'.unknownPrimaries, FlatMap(PrimaryOf, unknown),
                      FlatMap(PrimaryOf, unknown'));
    forall x, y | x in r.unknownSites && y in r.unknownSites && SiteKey(x) == SiteKey(y)
      ensures x == y
    {
      SiteKeysIdentify(x, y);
    }
    SortIsUnique(SiteKey, 2, r.unknownSites, r'.unknownSites);
  }

  lemma SameCallsAndIssues(g: Graph, g': Graph, r: Report, r': Report)
    requires multiset(g.calls) == multiset(g'.calls) && multiset(g.issues) == multiset(g'.issues)
    requires IsReport(g, r) && IsReport(g', r')
    ensures r.callCount == r'.callCount && r.issueCount == r'.issueCount && r.indirectExits == r'.indirectExits
    ensures r.directCallTargets == r'.directCallTargets && r.calls == r'.calls && r.issues == r'.issues
  {
    hide FlatMap, CanonicalBlock, BlockSites, LexLess, IsHistogram, CallKey, IssueKey, IndirectExitOf, ResolvedTarget;
    KeysAreUniform();
    PermutationLength(g.calls, g'.calls);
    PermutationLength(g.issues, g'.issues);
    FlatMapPermutes(IndirectExitOf, g.issues, g'.issues);
    PermutationLength(FlatMap(IndirectExitOf, g.issues), FlatMap(IndirectExitOf, g'.issues));
    FlatMapPermutes(ResolvedTarget, g.calls, g'.calls);
    HistogramIsUnique(r.directCallTargets, r'.directCallTargets, FlatMap(ResolvedTarget, g.calls),
                      FlatMap(ResolvedTarget, g'.calls));
    forall x, y | x in r.calls && y in r.calls && CallKey(x) == CallKey(y)
      ensures x == y
    {
      CallKeysIdentify(x, y);
    }
    SortIsUnique(CallKey, 4, r.calls, r'.calls);
    forall x, y | x in r.issues && y in r.issues && IssueKey(x) == IssueKey(y)
      ensures x == y
    {
      IssueKeysIdentify(x, y);
    }
    SortIsUnique(IssueKey, 5, r.issues, r'.issues);
  }

  /** Order independence: graphs with distinct block starts that differ only in the
      order of blocks, edges, calls and issues have the same report. */
  lemma ReportIgnoresOrder(g: Graph, g': Graph, r: Report, r': Report)
    requires DistinctStarts(g.blocks) && SameUpToOrder(g, g') && IsReport(g, r) && IsReport(g', r')
    ensures r == r'
  {
    hide FlatMap, CanonicalBlock, BlockSites, LexLess, IsHistogram, DistinctStarts;
    SameListing(g, g', r, r');
    SameCounts(g, g', r, r');
    SameCallsAndIssues(g, g', r, r');
  }

  /** The graph of an analysis has one report. */
  lemma AnalysisHasOneReport(m: MapValue, entry: U32, o: ReachabilityOptions, r: Report, r': Report)
    requires WellFormed(m) && AnalyzeReachability(m, entry, o).ReachOk?
    requires IsReport(AnalyzeReachability(m, entry, o).graph, r) && IsReport(AnalyzeReachability(m, entry, o).graph, r')
    ensures r == r'
  {
    hide AnalyzeReachability, IsReport, DistinctStarts, WellFormed;
    var g := AnalyzeReachability(m, entry, o).graph;
    ReachabilityIsSound(m, entry, o, 0);
    assert SameBlockwise(g.blocks, g.blocks);
    ReportIgnoresOrder(g, g, r, r');
  }

  // ---------------------------------------------------------------- conservation

  lemma {:induction false} SitesSplit(sites: seq<Site>)
    ensures |FlatMap(DecodedSite, sites)| + |FlatMap(UnknownSiteOf, sites)| == |sites|
    ensures |FlatMap(InstructionOf, sites)| == |sites|
    decreases |sites|
  {
    if |sites| > 0 {
      SitesSplit(sites[..|sites| - 1]);
    }
  }

  lemma {:induction false} PrimariesLength(unknown: seq<UnknownSite>)
    ensures |FlatMap(PrimaryOf, unknown)| == |unknown|
    decreases |unknown|
  {
    if |unknown| > 0 {
      PrimariesLength(unknown[..|unknown| - 1]);
    }
  }

  /** Conservation: decoded and unknown instructions add up to all instructions and
      to the instruction histogram; the unknown-opcode histogram and the listed
      unknown sites both add up to the unknown instructions; the call-site counts
      add up to the resolved direct calls. */
  lemma TotalsAreConserved(g: Graph, r: Report)
    requires IsReport(g, r)
    ensures r.decoded + r.unknown == r.instructions == Total(r.instructionHistogram)
    ensures Total(r.unknownPrimaries) == r.unknown == |r.unknownSites|
    ensures Total(r.directCallTargets) == |FlatMap(ResolvedTarget, g.calls)| && |r.calls| == r.callCount
    ensures |r.blocks| == r.blockCount && |r.issues| == r.issueCount
  {
    hide FlatMap, LexLess, IsHistogram, CanonicalBlock;
    KeysAreUniform();
    var sites := FlatMap(BlockSites, g.blocks);
    var unknown := FlatMap(UnknownSiteOf, sites);
    SitesSplit(sites);
    PrimariesLength(unknown);
    HistogramTotal(r.instructionHistogram, FlatMap(InstructionOf, sites));
    HistogramTotal(r.unknownPrimaries, FlatMap(PrimaryOf, unknown));
    HistogramTotal(r.directCallTargets, FlatMap(ResolvedTarget, g.calls));
    PermutationLength(r.unknownSites, unknown);
    PermutationLength(r.calls, g.calls);
    PermutationLength(r.issues, g.issues);
    PermutationLength(r.blocks, FlatMap(CanonicalBlock, g.blocks));
    ListingLength(g.blocks);
  }

  lemma {:induction false} ListingLength(blocks: seq<BasicBlock>)
    ensures |FlatMap(CanonicalBlock, blocks)| == |blocks|
    decreases |blocks|
  {
    hide Sort;
    if |blocks| > 0 {
      ListingLength(blocks[..|blocks| - 1]);
    }
  }
}
