/** The reachable-CFG search (src/analysis/r5900_reachability.cpp): a bounded
    breadth-first search over basic blocks, with calls and issues as evidence. */
module Reachability {
  import opened Words
  import opened Options
  import opened MemoryMap
  import opened MemoryMapObject
  import opened ControlFlow

  datatype ReachabilityError = InvalidBlockLimit | EntryAnalysisFailed

  datatype IssueKind =
    | UnresolvedIndirectExit
    | TargetAnalysisFailed
    | BlockLimitReached
    | LeaderInsideBlock
    | LeaderInsideDelaySlot

  datatype Call = Call(sourceBlock: U32, callPc: U32, indirect: bool, target: Option<U32>)

  datatype Issue = Issue(
    kind: IssueKind,
    sourceBlock: U32,
    target: Option<U32>,
    relatedBlock: Option<U32>,
    analysisError: Option<ControlFlowError>)

  datatype Graph = Graph(entryPc: U32, blocks: seq<BasicBlock>, calls: seq<Call>, issues: seq<Issue>)

  datatype ReachabilityOptions = ReachabilityOptions(
    maxBlocks: U64,
    followDirectCalls: bool,
    blockOptions: ControlFlowOptions)

  datatype ReachabilityResult = ReachOk(graph: Graph) | ReachFailed(error: ReachabilityError)

  datatype PendingTarget = PendingTarget(pc: U32, sourceBlock: U32, isEntry: bool)

  // ---------------------------------------------------------------- what a visited target contributes

  function BlockAt(m: MapValue, o: ReachabilityOptions, pc: U32): BlockResult
    requires WellFormed(m)
  {
    AnalyzeBlock(m, pc, o.blockOptions)
  }

  /** The blocks of the visited targets whose analysis succeeds, in visiting order. */
  function BlocksOf(m: MapValue, o: ReachabilityOptions, visited: seq<PendingTarget>): (blocks: seq<BasicBlock>)
    requires WellFormed(m)
    ensures |blocks| <= |visited|
  {
    if |visited| == 0 then []
    else
      var last := |visited| - 1;
      var r := BlockAt(m, o, visited[last].pc);
      BlocksOf(m, o, visited[..last]) + (if r.BlockOk? then [r.block] else [])
  }

  function TerminatorPc(block: BasicBlock): U32 {
    if |block.instructions| == 0 then block.startPc else block.instructions[|block.instructions| - 1].pc
  }

  function EdgeCall(source: U32, callPc: U32, edge: Edge): seq<Call> {
    match edge.kind
    case DirectCallEdge => [Call(source, callPc, false, edge.target)]
    case IndirectCallEdge => [Call(source, callPc, true, None)]
    case _ => []
  }

  function EdgeCalls(source: U32, callPc: U32, edges: seq<Edge>): seq<Call> {
    if |edges| == 0 then [] else EdgeCall(source, callPc, edges[0]) + EdgeCalls(source, callPc, edges[1..])
  }

  function CallsOf(blocks: seq<BasicBlock>): seq<Call> {
    if |blocks| == 0 then []
    else
      var b := blocks[|blocks| - 1];
      CallsOf(blocks[..|blocks| - 1]) + EdgeCalls(b.startPc, TerminatorPc(b), b.ending.edges)
  }

  function IndirectExit(source: U32, edge: Edge): seq<Issue> {
    if edge.kind in {IndirectJumpEdge, IndirectCallEdge} then [Issue(UnresolvedIndirectExit, source, None, None, None)]
    else []
  }

  function IndirectExits(source: U32, edges: seq<Edge>): seq<Issue> {
    if |edges| == 0 then [] else IndirectExit(source, edges[0]) + IndirectExits(source, edges[1..])
  }

  function TargetFailure(pending: PendingTarget, error: ControlFlowError): Issue {
    Issue(TargetAnalysisFailed, pending.sourceBlock, Some(pending.pc), None, Some(error))
  }

  function VisitIssues(m: MapValue, o: ReachabilityOptions, pending: PendingTarget): seq<Issue>
    requires WellFormed(m)
  {
    var r := BlockAt(m, o, pending.pc);
    if r.BlockFailed? then [TargetFailure(pending, r.error)] else IndirectExits(r.block.startPc, r.block.ending.edges)
  }

  function IssuesOf(m: MapValue, o: ReachabilityOptions, visited: seq<PendingTarget>): seq<Issue>
    requires WellFormed(m)
  {
    if |visited| == 0 then []
    else IssuesOf(m, o, visited[..|visited| - 1]) + VisitIssues(m, o, visited[|visited| - 1])
  }

  // ---------------------------------------------------------------- the search

  /** The target an edge makes the search follow, if any. */
  function Followed(e: Edge, followDirectCalls: bool): Option<U32> {
    match e.kind
    case IndirectJumpEdge => None
    case IndirectCallEdge => None
    case DirectCallEdge => if followDirectCalls then e.target else None
    case _ => e.target
  }

  predicate Scheduled(queue: seq<PendingTarget>, pc: U32) {
    exists i :: 0 <= i < |queue| && queue[i].pc == pc
  }

  function Enqueue(queue: seq<PendingTarget>, source: U32, target: Option<U32>): (r: seq<PendingTarget>)
    ensures |queue| <= |r| <= |queue| + 1
  {
    if target.Some? && !Scheduled(queue, target.value) then queue + [PendingTarget(target.value, source, false)]
    else queue
  }

  /** Every target is queued once, over the whole search. */
  function EnqueueAll(queue: seq<PendingTarget>, source: U32, edges: seq<Edge>, follow: bool): (r: seq<PendingTarget>)
    ensures |queue| <= |r| <= |queue| + |edges|
    decreases |edges|
  {
    if |edges| == 0 then queue
    else EnqueueAll(Enqueue(queue, source, Followed(edges[0], follow)), source, edges[1..], follow)
  }

  /** All targets ever queued, in order; those before head are visited. */
  datatype Search = Search(queue: seq<PendingTarget>, head: nat)

  datatype Outcome = EntryFailed | Explored(search: Search)

  function Start(entry: U32): Search { Search([PendingTarget(entry, entry, true)], 0) }

  /** The state behind the visit of the next target. */
  function Visit(m: MapValue, o: ReachabilityOptions, s: Search): (s': Search)
    requires WellFormed(m) && s.head < |s.queue|
    ensures s'.head == s.head + 1 <= |s'.queue|
  {
    var r := BlockAt(m, o, s.queue[s.head].pc);
    Search(if r.BlockFailed? then s.queue
           else EnqueueAll(s.queue, r.block.startPc, r.block.ending.edges, o.followDirectCalls),
           s.head + 1)
  }

  /** The search loop. Every visit decreases 3 * (maxBlocks - blocks) + pending:
      a block queues at most two targets. */
  function Explore(m: MapValue, o: ReachabilityOptions, s: Search): (r: Outcome)
    requires WellFormed(m) && s.head <= |s.queue|
    ensures r.Explored? ==> r.search.head <= |r.search.queue|
    decreases 3 * (o.maxBlocks - |BlocksOf(m, o, s.queue[..s.head])|) + |s.queue| - s.head
  {
    if s.head == |s.queue| || |BlocksOf(m, o, s.queue[..s.head])| >= o.maxBlocks then Explored(s)
    else if s.queue[s.head].isEntry && BlockAt(m, o, s.queue[s.head].pc).BlockFailed? then EntryFailed
    else
      VisitAppends(m, o, s);
      Explore(m, o, Visit(m, o, s))
  }

  lemma EnqueueAllAppends(queue: seq<PendingTarget>, source: U32, edges: seq<Edge>, follow: bool)
    ensures queue <= EnqueueAll(queue, source, edges, follow)
    decreases |edges|
  {
  }

  /** Visiting only appends to the queue, and adds the block of the visited target. */
  lemma VisitAppends(m: MapValue, o: ReachabilityOptions, s: Search)
    requires WellFormed(m) && s.head < |s.queue|
    ensures var s' := Visit(m, o, s);
            && s.queue <= s'.queue
            && |s'.queue| <= |s.queue| + (if BlockAt(m, o, s.queue[s.head].pc).BlockOk? then 2 else 0)
            && s'.queue[..s'.head] == s.queue[..s.head] + [s.queue[s.head]]
            && BlocksOf(m, o, s'.queue[..s'.head]) ==
               BlocksOf(m, o, s.queue[..s.head]) +
               (var r := BlockAt(m, o, s.queue[s.head].pc); if r.BlockOk? then [r.block] else [])
            && IssuesOf(m, o, s'.queue[..s'.head]) ==
               IssuesOf(m, o, s.queue[..s.head]) + VisitIssues(m, o, s.queue[s.head])
  {
    hide AnalyzeBlock, WellFormed, EnqueueAll, VisitIssues;
    var r := BlockAt(m, o, s.queue[s.head].pc);
    if r.BlockOk? {
      BlockEdges(m, s.queue[s.head].pc, o.blockOptions);
      EnqueueAllAppends(s.queue, r.block.startPc, r.block.ending.edges, o.followDirectCalls);
    }
    var s' := Visit(m, o, s);
    var visited := s'.queue[..s'.head];
    assert visited[..s.head] == s.queue[..s.head] && visited[s.head] == s.queue[s.head];
  }

  // ---------------------------------------------------------------- overlapping leaders

  predicate HasInstructionAt(block: BasicBlock, pc: U32) {
    exists k :: 0 <= k < |block.instructions| && block.instructions[k].pc == pc
  }

  function InsideBlock(leader: U32, container: U32): Issue {
    Issue(LeaderInsideBlock, leader, Some(leader), Some(container), None)
  }

  function InsideDelaySlot(leader: U32, container: U32): Issue {
    Issue(LeaderInsideDelaySlot, leader, Some(leader), Some(container), None)
  }

  predicate LeaderIsInside(leader: U32, b: BasicBlock) {
    exists k :: 0 < k < |b.instructions| && b.instructions[k].pc == leader &&
                forall i :: 0 <= i < k ==> b.instructions[i].pc != leader
  }

  predicate LeaderIsDelaySlot(leader: U32, b: BasicBlock) {
    b.ending.delaySlot.Some? && b.ending.delaySlot.value.pc == leader
  }

  /** The issues of one leader against one other block. */
  function PairIssues(leader: U32, b: BasicBlock): seq<Issue> {
    if b.startPc == leader then []
    else
      (if LeaderIsInside(leader, b) then [InsideBlock(leader, b.startPc)] else []) +
      (if LeaderIsDelaySlot(leader, b) then [InsideDelaySlot(leader, b.startPc)] else [])
  }

  function LeaderIssues(leader: U32, blocks: seq<BasicBlock>): seq<Issue> {
    if |blocks| == 0 then []
    else LeaderIssues(leader, blocks[..|blocks| - 1]) + PairIssues(leader, blocks[|blocks| - 1])
  }

  /** Every leader against every block. */
  function OverlapIssues(leaders: seq<BasicBlock>, blocks: seq<BasicBlock>): seq<Issue> {
    if |leaders| == 0 then []
    else OverlapIssues(leaders[..|leaders| - 1], blocks) + LeaderIssues(leaders[|leaders| - 1].startPc, blocks)
  }

  predicate DistinctStarts(blocks: seq<BasicBlock>) {
    forall i, j :: 0 <= i < j < |blocks| ==> blocks[i].startPc != blocks[j].startPc
  }

  // ---------------------------------------------------------------- the analysis

  function LimitIssue(s: Search): seq<Issue>
    requires s.head <= |s.queue|
  {
    if s.head == |s.queue| then []
    else [Issue(BlockLimitReached, s.queue[s.head].sourceBlock, Some(s.queue[s.head].pc), None, None)]
  }

  function GraphOf(m: MapValue, o: ReachabilityOptions, entry: U32, s: Search): Graph
    requires WellFormed(m) && s.head <= |s.queue|
  {
    var blocks := BlocksOf(m, o, s.queue[..s.head]);
    Graph(entry, blocks, CallsOf(blocks),
          IssuesOf(m, o, s.queue[..s.head]) + LimitIssue(s) + OverlapIssues(blocks, blocks))
  }

  /** analyze_r5900_reachability. */
  function AnalyzeReachability(m: MapValue, entry: U32, o: ReachabilityOptions): ReachabilityResult
    requires WellFormed(m)
  {
    if o.maxBlocks == 0 then ReachFailed(InvalidBlockLimit)
    else
      var r := Explore(m, o, Start(entry));
      if r.EntryFailed? then ReachFailed(EntryAnalysisFailed) else ReachOk(GraphOf(m, o, entry, r.search))
  }

  // ---------------------------------------------------------------- the analysis over the map object

  predicate DistinctPcs(queue: seq<PendingTarget>) {
    forall i, j :: 0 <= i < j < |queue| ==> queue[i].pc != queue[j].pc
  }

  lemma BlockStartsAt(m: MapValue, o: ReachabilityOptions, pc: U32)
    requires WellFormed(m) && BlockAt(m, o, pc).BlockOk?
    ensures BlockAt(m, o, pc).block.startPc == pc && |BlockAt(m, o, pc).block.instructions| > 0
    ensures BlockAt(m, o, pc).block.instructions[0].pc == pc
  {
    hide Scan, FetchSite, WellFormed;
    ScanLength(m, o.blockOptions.requireExecutable, pc, o.blockOptions.maxInstructions);
    ScanSites(m, o.blockOptions.requireExecutable, pc, o.blockOptions.maxInstructions, 0);
    FetchedSite(m, pc, o.blockOptions.requireExecutable);
    PcStep(pc, 0);
  }

  /** A block of the visited targets, by the target it was found at. */
  lemma {:induction false} BlockOrigin(m: MapValue, o: ReachabilityOptions, visited: seq<PendingTarget>, k: nat)
    returns (i: nat)
    requires WellFormed(m) && k < |BlocksOf(m, o, visited)|
    ensures i < |visited| && BlockAt(m, o, visited[i].pc) == BlockOk(BlocksOf(m, o, visited)[k])
    ensures BlocksOf(m, o, visited)[k].startPc == visited[i].pc
    decreases |visited|
  {
    hide AnalyzeBlock, WellFormed;
    var last := |visited| - 1;
    if k < |BlocksOf(m, o, visited[..last])| {
      i := BlockOrigin(m, o, visited[..last], k);
    } else {
      i := last;
      BlockStartsAt(m, o, visited[last].pc);
    }
  }

  lemma {:induction false} DistinctBlocks(m: MapValue, o: ReachabilityOptions, visited: seq<PendingTarget>)
    requires WellFormed(m) && DistinctPcs(visited)
    ensures DistinctStarts(BlocksOf(m, o, visited))
    decreases |visited|
  {
    hide AnalyzeBlock, WellFormed;
    if |visited| > 0 {
      var last := |visited| - 1;
      DistinctBlocks(m, o, visited[..last]);
      var blocks := BlocksOf(m, o, visited[..last]);
      if BlockAt(m, o, visited[last].pc).BlockOk? {
        BlockStartsAt(m, o, visited[last].pc);
        forall k | 0 <= k < |blocks|
          ensures blocks[k].startPc != visited[last].pc
        {
          var i := BlockOrigin(m, o, visited[..last], k);
        }
      }
    }
  }

  lemma EnqueueAllDistinct(queue: seq<PendingTarget>, source: U32, edges: seq<Edge>, follow: bool)
    requires DistinctPcs(queue)
    ensures DistinctPcs(EnqueueAll(queue, source, edges, follow))
    decreases |edges|
  {
    if |edges| > 0 {
      EnqueueAllDistinct(Enqueue(queue, source, Followed(edges[0], follow)), source, edges[1..], follow);
    }
  }

  type IssueKey = (IssueKind, U32, U32)

  method FindInstruction(block: BasicBlock, pc: U32) returns (k: nat)
    ensures k <= |block.instructions| && (k < |block.instructions| ==> block.instructions[k].pc == pc)
    ensures forall i :: 0 <= i < k ==> block.instructions[i].pc != pc
  {
    k := 0;
    while k < |block.instructions| && block.instructions[k].pc != pc
      invariant k <= |block.instructions|
      invariant forall i :: 0 <= i < k ==> block.instructions[i].pc != pc
    {
      k := k + 1;
    }
  }

  /** Every emitted key belongs to an earlier leader, or to this leader and an
      earlier block. */
  predicate KeysBefore(emitted: set<IssueKey>, blocks: seq<BasicBlock>, leader: U32, i: nat, j: nat)
    requires i <= |blocks| && j <= |blocks|
  {
    forall key | key in emitted ::
      (exists a :: 0 <= a < i && blocks[a].startPc == key.1) ||
      (key.1 == leader && exists b :: 0 <= b < j && blocks[b].startPc == key.2)
  }

  lemma FreshKey(emitted: set<IssueKey>, blocks: seq<BasicBlock>, i: nat, j: nat, kind: IssueKind)
    requires i < |blocks| && j < |blocks| && DistinctStarts(blocks)
    requires KeysBefore(emitted, blocks, blocks[i].startPc, i, j)
    ensures (kind, blocks[i].startPc, blocks[j].startPc) !in emitted
  {
  }

  /** One leader against one block. With distinct starts the set of emitted keys
      never rejects an issue. */
  method DetectPair(blocks: seq<BasicBlock>, i: nat, j: nat, emitted: set<IssueKey>, issues: seq<Issue>)
    returns (emitted': set<IssueKey>, issues': seq<Issue>)
    requires DistinctStarts(blocks) && i < |blocks| && j < |blocks|
    requires KeysBefore(emitted, blocks, blocks[i].startPc, i, j)
    ensures KeysBefore(emitted', blocks, blocks[i].startPc, i, j + 1)
    ensures issues' == issues + PairIssues(blocks[i].startPc, blocks[j])
  {
    emitted', issues' := emitted, issues;
    var leader, container := blocks[i].startPc, blocks[j];
    if leader == container.startPc {
      return;
    }
    FreshKey(emitted, blocks, i, j, LeaderInsideBlock);
    FreshKey(emitted, blocks, i, j, LeaderInsideDelaySlot);
    var k := FindInstruction(container, leader);
    if k != |container.instructions| && k != 0 {
      var key := (LeaderInsideBlock, leader, container.startPc);
      if key !in emitted' {
        emitted' := emitted' + {key};
        issues' := issues' + [InsideBlock(leader, container.startPc)];
      }
    }
    if LeaderIsDelaySlot(leader, container) {
      var key := (LeaderInsideDelaySlot, leader, container.startPc);
      if key !in emitted' {
        emitted' := emitted' + {key};
        issues' := issues' + [InsideDelaySlot(leader, container.startPc)];
      }
    }
  }

  /** One leader against every block. */
  method DetectLeader(blocks: seq<BasicBlock>, i: nat, emitted: set<IssueKey>, issues: seq<Issue>)
    returns (emitted': set<IssueKey>, issues': seq<Issue>)
    requires DistinctStarts(blocks) && i < |blocks|
    requires KeysBefore(emitted, blocks, blocks[i].startPc, i, 0)
    ensures KeysBefore(emitted', blocks, blocks[i].startPc, i, |blocks|)
    ensures issues' == issues + LeaderIssues(blocks[i].startPc, blocks)
  {
    hide PairIssues, DistinctStarts, KeysBefore;
    emitted', issues' := emitted, issues;
    for j := 0 to |blocks|
      invariant issues' == issues + LeaderIssues(blocks[i].startPc, blocks[..j])
      invariant KeysBefore(emitted', blocks, blocks[i].startPc, i, j)
    {
      emitted', issues' := DetectPair(blocks, i, j, emitted', issues');
      assert blocks[..j + 1][..j] == blocks[..j];
    }
    assert blocks[..|blocks|] == blocks;
  }

  lemma NextLeader(emitted: set<IssueKey>, blocks: seq<BasicBlock>, i: nat)
    requires i + 1 < |blocks| && KeysBefore(emitted, blocks, blocks[i].startPc, i, |blocks|)
    ensures KeysBefore(emitted, blocks, blocks[i + 1].startPc, i + 1, 0)
  {
  }

  /** detect_overlapping_leaders. */
  method DetectOverlappingLeaders(blocks: seq<BasicBlock>, issues: seq<Issue>) returns (issues': seq<Issue>)
    requires DistinctStarts(blocks)
    ensures issues' == issues + OverlapIssues(blocks, blocks)
  {
    hide LeaderIssues, DistinctStarts, KeysBefore;
    issues' := issues;
    var emitted: set<IssueKey> := {};
    assert |blocks| > 0 ==> KeysBefore(emitted, blocks, blocks[0].startPc, 0, 0) by {
      if |blocks| > 0 {
        NoKeys(blocks, blocks[0].startPc);
      }
    }
    for i := 0 to |blocks|
      invariant issues' == issues + OverlapIssues(blocks[..i], blocks)
      invariant i < |blocks| ==> KeysBefore(emitted, blocks, blocks[i].startPc, i, 0)
    {
      emitted, issues' := DetectLeader(blocks, i, emitted, issues');
      assert blocks[..i + 1][..i] == blocks[..i];
      if i + 1 < |blocks| {
        NextLeader(emitted, blocks, i);
      }
    }
    assert blocks[..|blocks|] == blocks;
  }

  lemma NoKeys(blocks: seq<BasicBlock>, leader: U32)
    ensures KeysBefore({}, blocks, leader, 0, 0)
  {
  }

  predicate Tracks(scheduled: set<U32>, queue: seq<PendingTarget>) {
    forall pc: U32 :: pc in scheduled <==> Scheduled(queue, pc)
  }

  lemma TracksAppend(scheduled: set<U32>, queue: seq<PendingTarget>, pending: PendingTarget)
    requires Tracks(scheduled, queue)
    ensures Tracks(scheduled + {pending.pc}, queue + [pending])
  {
    var queue' := queue + [pending];
    forall pc: U32
      ensures pc in scheduled + {pending.pc} <==> Scheduled(queue', pc)
    {
      if Scheduled(queue, pc) {
        var i :| 0 <= i < |queue| && queue[i].pc == pc;
        assert queue'[i].pc == pc;
      }
      assert queue'[|queue|].pc == pending.pc;
    }
  }

  /** Puts a target on the worklist unless it was scheduled before. */
  method Schedule(target: Option<U32>, source: U32, ghost queue: seq<PendingTarget>, ghost head: nat,
                  worklist: seq<PendingTarget>, scheduled: set<U32>)
    returns (worklist': seq<PendingTarget>, scheduled': set<U32>)
    requires head <= |queue| && worklist == queue[head..] && Tracks(scheduled, queue)
    ensures var queue' := Enqueue(queue, source, target); worklist' == queue'[head..] && Tracks(scheduled', queue')
  {
    worklist', scheduled' := worklist, scheduled;
    if target.Some? && target.value !in scheduled {
      TracksAppend(scheduled, queue, PendingTarget(target.value, source, false));
      scheduled' := scheduled' + {target.value};
      worklist' := worklist' + [PendingTarget(target.value, source, false)];
    }
  }

  /** One edge of a new block: schedule its target if it is followed, record a
      call and an unresolved exit. */
  method FollowEdge(edge: Edge, source: U32, callPc: U32, followDirectCalls: bool,
                    ghost queue: seq<PendingTarget>, ghost head: nat,
                    worklist: seq<PendingTarget>, scheduled: set<U32>, calls: seq<Call>, issues: seq<Issue>)
    returns (worklist': seq<PendingTarget>, scheduled': set<U32>, calls': seq<Call>, issues': seq<Issue>)
    requires head <= |queue| && worklist == queue[head..] && Tracks(scheduled, queue)
    ensures var queue' := Enqueue(queue, source, Followed(edge, followDirectCalls));
            worklist' == queue'[head..] && Tracks(scheduled', queue')
    ensures calls' == calls + EdgeCall(source, callPc, edge) && issues' == issues + IndirectExit(source, edge)
  {
    hide Tracks, Scheduled;
    worklist', scheduled', calls', issues' := worklist, scheduled, calls, issues;
    match edge.kind {
      case DirectCallEdge =>
        calls' := calls' + [Call(source, callPc, false, edge.target)];
        if followDirectCalls {
          worklist', scheduled' := Schedule(edge.target, source, queue, head, worklist', scheduled');
        }
      case IndirectCallEdge =>
        calls' := calls' + [Call(source, callPc, true, None)];
        issues' := issues' + [Issue(UnresolvedIndirectExit, source, None, None, None)];
      case IndirectJumpEdge =>
        issues' := issues' + [Issue(UnresolvedIndirectExit, source, None, None, None)];
      case _ =>
        worklist', scheduled' := Schedule(edge.target, source, queue, head, worklist', scheduled');
    }
  }

  /** All edges of a new block. */
  method FollowEdges(block: BasicBlock, followDirectCalls: bool, ghost queue: seq<PendingTarget>, ghost head: nat,
                     worklist: seq<PendingTarget>, scheduled: set<U32>, calls: seq<Call>, issues: seq<Issue>)
    returns (worklist': seq<PendingTarget>, scheduled': set<U32>, calls': seq<Call>, issues': seq<Issue>)
    requires head <= |queue| && worklist == queue[head..] && Tracks(scheduled, queue)
    ensures var queue' := EnqueueAll(queue, block.startPc, block.ending.edges, followDirectCalls);
            worklist' == queue'[head..] && Tracks(scheduled', queue')
    ensures calls' == calls + EdgeCalls(block.startPc, TerminatorPc(block), block.ending.edges)
    ensures issues' == issues + IndirectExits(block.startPc, block.ending.edges)
  {
    hide Tracks, Enqueue, EdgeCall, IndirectExit, Followed;
    worklist', scheduled', calls', issues' := worklist, scheduled, calls, issues;
    var edges, source, callPc := block.ending.edges, block.startPc, TerminatorPc(block);
    ghost var q := queue;
    for i := 0 to |edges|
      invariant EnqueueAll(q, source, edges[i..], followDirectCalls) ==
        EnqueueAll(queue, source, edges, followDirectCalls)
      invariant head <= |q| && worklist' == q[head..] && Tracks(scheduled', q)
      invariant calls' + EdgeCalls(source, callPc, edges[i..]) == calls + EdgeCalls(source, callPc, edges)
      invariant issues' + IndirectExits(source, edges[i..]) == issues + IndirectExits(source, edges)
    {
      assert edges[i..][1..] == edges[i + 1..];
      worklist', scheduled', calls', issues' :=
        FollowEdge(edges[i], source, callPc, followDirectCalls, q, head, worklist', scheduled', calls', issues');
      q := Enqueue(q, source, Followed(edges[i], followDirectCalls));
    }
  }

  /** analyze_r5900_reachability. */
  method AnalyzeR5900Reachability(memory: Ps2MemoryMap, entryPc: U32, options: ReachabilityOptions)
    returns (result: ReachabilityResult)
    requires memory.Valid()
    ensures result == AnalyzeReachability(memory.Value(), entryPc, options)
  {
    hide AnalyzeBlock, WellFormed, OverlapIssues, DistinctStarts, EnqueueAll, EdgeCalls, IndirectExits, BlocksOf,
      IssuesOf, Tracks, TerminatorPc, KeysBefore, Scheduled;
    if options.maxBlocks == 0 {
      return ReachFailed(InvalidBlockLimit);
    }
    ghost var m, s := memory.Value(), Start(entryPc);
    var worklist := [PendingTarget(entryPc, entryPc, true)];
    var scheduled := {entryPc};
    var blocks, calls, issues := [], [], [];
    StartsEmpty(m, options, entryPc);
    while |worklist| > 0
      invariant s.head <= |s.queue| && DistinctPcs(s.queue)
      invariant Explore(m, options, s) == Explore(m, options, Start(entryPc))
      invariant worklist == s.queue[s.head..] && Tracks(scheduled, s.queue)
      invariant blocks == BlocksOf(m, options, s.queue[..s.head]) && calls == CallsOf(blocks)
      invariant issues == IssuesOf(m, options, s.queue[..s.head])
      decreases 3 * (options.maxBlocks - |blocks|) + |worklist|
    {
      var pending := worklist[0];
      worklist := worklist[1..];
      if |blocks| >= options.maxBlocks {
        issues := issues + [Issue(BlockLimitReached, pending.sourceBlock, Some(pending.pc), None, None)];
        break;
      }
      var r := AnalyzeR5900BasicBlock(memory, pending.pc, options.blockOptions);
      if r.BlockFailed? && pending.isEntry {
        return ReachFailed(EntryAnalysisFailed);
      }
      VisitAppends(m, options, s);
      if r.BlockFailed? {
        issues := issues + [TargetFailure(pending, r.error)];
      } else {
        BlockStartsAt(m, options, pending.pc);
        EnqueueAllDistinct(s.queue, r.block.startPc, r.block.ending.edges, options.followDirectCalls);
        blocks := blocks + [r.block];
        worklist, scheduled, calls, issues :=
          FollowEdges(r.block, options.followDirectCalls, s.queue, s.head + 1, worklist, scheduled, calls, issues);
      }
      s := Visit(m, options, s);
    }
    DistinctBlocks(m, options, s.queue[..s.head]);
    issues := DetectOverlappingLeaders(blocks, issues);
    result := ReachOk(Graph(entryPc, blocks, calls, issues));
  }

  lemma StartsEmpty(m: MapValue, o: ReachabilityOptions, entry: U32)
    requires WellFormed(m)
    ensures var s := Start(entry);
            && BlocksOf(m, o, s.queue[..0]) == [] && IssuesOf(m, o, s.queue[..0]) == [] && CallsOf([]) == []
            && Tracks({entry}, s.queue) && DistinctPcs(s.queue)
  {
    assert Start(entry).queue[0].pc == entry;
  }
}
