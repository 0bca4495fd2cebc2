/** Which edges the search follows, stated about the edges of the listed blocks
    themselves (src/analysis/r5900_reachability.cpp). */
module ReachabilityEdges {
  import opened Words
  import opened Options
  import opened MemoryMap
  import opened ControlFlow
  import opened Reachability
  import opened ReachabilityFacts

  /** The edge kinds a search goes along: all with a known target, direct calls only on
      request. */
  predicate GoesAlong(kind: EdgeKind, followDirectCalls: bool) {
    || kind == BranchTaken || kind == BranchNotTaken || kind == DirectJumpEdge || kind == CallContinuation
    || kind == Fallthrough || (kind == DirectCallEdge && followDirectCalls)
  }

  predicate LeadsTo(e: Edge, followDirectCalls: bool, t: U32) {
    GoesAlong(e.kind, followDirectCalls) && e.target == Some(t)
  }

  lemma FollowedMeans(e: Edge, followDirectCalls: bool, t: U32)
    ensures Followed(e, followDirectCalls) == Some(t) <==> LeadsTo(e, followDirectCalls, t)
  {
  }

  /** The graph the search explores: from a PC whose block analyzes, along the edges of
      that block that go along. */
  lemma EdgeMeans(m: MapValue, o: ReachabilityOptions, p: U32, t: U32)
    requires WellFormed(m)
    ensures HasEdge(m, o, p, t) <==>
            var r := AnalyzeBlock(m, p, o.blockOptions);
            r.BlockOk? && exists e :: e in r.block.ending.edges && LeadsTo(e, o.followDirectCalls, t)
  {
    hide AnalyzeBlock, WellFormed, Followed, LeadsTo;
    var r := AnalyzeBlock(m, p, o.blockOptions);
    if r.BlockOk? {
      forall e | e in r.block.ending.edges
        ensures Followed(e, o.followDirectCalls) == Some(t) <==> LeadsTo(e, o.followDirectCalls, t)
      {
        FollowedMeans(e, o.followDirectCalls, t);
      }
    }
  }

  /** Without a limit issue, every edge of a listed block that the search goes along
      leads to a listed block or to a target whose analysis failed. */
  lemma EdgesAreExplored(m: MapValue, entry: U32, o: ReachabilityOptions, b: BasicBlock, e: Edge, t: U32)
    requires WellFormed(m) && AnalyzeReachability(m, entry, o).ReachOk?
    requires !LimitReached(AnalyzeReachability(m, entry, o).graph.issues)
    requires b in AnalyzeReachability(m, entry, o).graph.blocks && e in b.ending.edges
    requires LeadsTo(e, o.followDirectCalls, t)
    ensures var g := AnalyzeReachability(m, entry, o).graph; IsBlock(g.blocks, t) || FailedTarget(g.issues, t)
  {
    hide AnalyzeBlock, WellFormed, AnalyzeReachability, HasEdge, LimitReached, IsBlock, FailedTarget, LeadsTo;
    LimitIffOpen(m, entry, o);
    BlocksNonEmpty(m, entry, o);
    EdgeMeans(m, o, b.startPc, t);
  }

  /** Every listed block but the first is the target of such an edge of a listed block. */
  lemma BlocksHaveParents(m: MapValue, entry: U32, o: ReachabilityOptions, k: nat)
    requires WellFormed(m) && AnalyzeReachability(m, entry, o).ReachOk?
    requires 0 < k < |AnalyzeReachability(m, entry, o).graph.blocks|
    ensures var blocks := AnalyzeReachability(m, entry, o).graph.blocks;
            exists b, e :: b in blocks && e in b.ending.edges &&
                           LeadsTo(e, o.followDirectCalls, blocks[k].startPc)
  {
    hide SearchInv, BlockAt, HasEdge, WellFormed, AnalyzeReachability, Explore, GraphOf, IsDistance, Expanded, LeadsTo;
    var s, levels := FinalSearch(m, entry, o);
    InvParts(m, o, entry, s, levels);
    ReachabilityIsSound(m, entry, o, k);
    var i := BlockInQueue(m, entry, o, s, levels, k);
    assert HasParent(m, o, s, levels, i);
    var j :| 0 <= j < i && j < s.head && HasEdge(m, o, s.queue[j].pc, s.queue[i].pc);
    ParentBlock(m, o, entry, s, j, s.queue[i].pc);
  }

  lemma ParentBlock(m: MapValue, o: ReachabilityOptions, entry: U32, s: Search, j: nat, t: U32)
    requires WellFormed(m) && j < s.head <= |s.queue| && HasEdge(m, o, s.queue[j].pc, t)
    ensures exists b, e :: b in GraphOf(m, o, entry, s).blocks && e in b.ending.edges &&
                           LeadsTo(e, o.followDirectCalls, t)
  {
    hide AnalyzeBlock, HasEdge, WellFormed, GraphOf, LeadsTo;
    var p := s.queue[j].pc;
    EdgeMeans(m, o, p, t);
    BlockOfVisited(m, o, entry, s, j);
    var b := AnalyzeBlock(m, p, o.blockOptions).block;
    var e :| e in b.ending.edges && LeadsTo(e, o.followDirectCalls, t);
    assert b in GraphOf(m, o, entry, s).blocks;
  }

  /** A limit issue names a listed block and a target of it that was left unexamined,
      and there is at most one. */
  lemma LimitIssueIsGenuine(m: MapValue, entry: U32, o: ReachabilityOptions, x: Issue)
    requires WellFormed(m) && AnalyzeReachability(m, entry, o).ReachOk?
    requires x in AnalyzeReachability(m, entry, o).graph.issues && x.kind == BlockLimitReached
    ensures var g := AnalyzeReachability(m, entry, o).graph;
            && x == Issue(BlockLimitReached, x.sourceBlock, x.target, None, None) && x.target.Some?
            && IsBlock(g.blocks, x.sourceBlock) && HasEdge(m, o, x.sourceBlock, x.target.value)
            && !IsBlock(g.blocks, x.target.value) && !FailedTarget(g.issues, x.target.value)
            && forall y :: y in g.issues && y.kind == BlockLimitReached ==> y == x
  {
    hide SearchInv, BlockAt, HasEdge, WellFormed, AnalyzeReachability, Explore, GraphOf, Expanded, IsBlock,
      FailedTarget;
    var s, levels := FinalSearch(m, entry, o);
    InvParts(m, o, entry, s, levels);
    var g := GraphOf(m, o, entry, s);
    forall y | y in g.issues && y.kind == BlockLimitReached
      ensures y in LimitIssue(s)
    {
      GraphIssue(m, o, entry, s, y);
    }
    assert HasParent(m, o, s, levels, s.head);
    var j :| 0 <= j < s.head && s.queue[s.head].sourceBlock == s.queue[j].pc &&
             HasEdge(m, o, s.queue[j].pc, s.queue[s.head].pc);
    SourceIsBlock(m, o, entry, s, j, s.queue[s.head].pc);
    if IsBlock(g.blocks, s.queue[s.head].pc) || FailedTarget(g.issues, s.queue[s.head].pc) {
      AccountedIsVisited(m, o, entry, s, s.queue[s.head].pc);
      assert false;
    }
  }

  lemma SourceIsBlock(m: MapValue, o: ReachabilityOptions, entry: U32, s: Search, j: nat, t: U32)
    requires WellFormed(m) && j < s.head <= |s.queue| && HasEdge(m, o, s.queue[j].pc, t)
    ensures IsBlock(GraphOf(m, o, entry, s).blocks, s.queue[j].pc)
  {
    hide AnalyzeBlock, HasEdge, WellFormed, GraphOf;
    EdgeSource(m, o, s.queue[j].pc, t);
    BlockOfVisited(m, o, entry, s, j);
    BlockStartsAt(m, o, s.queue[j].pc);
  }

  /** The block has the leader among its instructions. */
  predicate Contains(b: BasicBlock, leader: U32) { exists site :: site in b.instructions && site.pc == leader }

  /** Field by field: an overlap issue names a block start, twice, and the start of
      another block that has it among its instructions or as its delay slot. */
  lemma OverlapIssuesMean(m: MapValue, entry: U32, o: ReachabilityOptions, x: Issue)
    requires WellFormed(m) && AnalyzeReachability(m, entry, o).ReachOk?
    requires x.kind == LeaderInsideBlock || x.kind == LeaderInsideDelaySlot
    ensures var g := AnalyzeReachability(m, entry, o).graph;
            x in g.issues <==>
            && x.target == Some(x.sourceBlock) && x.relatedBlock.Some? && x.analysisError.None?
            && x.relatedBlock.value != x.sourceBlock && (exists a :: a in g.blocks && a.startPc == x.sourceBlock)
            && exists b :: b in g.blocks && b.startPc == x.relatedBlock.value &&
                 if x.kind == LeaderInsideBlock then Contains(b, x.sourceBlock)
                 else b.ending.delaySlot.Some? && b.ending.delaySlot.value.pc == x.sourceBlock
  {
    hide WellFormed, AnalyzeReachability, HasInstructionAt;
    var g := AnalyzeReachability(m, entry, o).graph;
    forall b | b in g.blocks
      ensures HasInstructionAt(b, x.sourceBlock) <==> Contains(b, x.sourceBlock)
    {
      ContainsMeans(b, x.sourceBlock);
    }
    OverlapsAreExact(m, entry, o, x.sourceBlock, if x.relatedBlock.Some? then x.relatedBlock.value else 0);
  }

  lemma ContainsMeans(b: BasicBlock, leader: U32)
    ensures HasInstructionAt(b, leader) <==> Contains(b, leader)
  {
    if HasInstructionAt(b, leader) {
      var k :| 0 <= k < |b.instructions| && b.instructions[k].pc == leader;
      assert b.instructions[k] in b.instructions;
    }
  }
}
