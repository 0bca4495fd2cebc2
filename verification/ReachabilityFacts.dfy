/** Properties of the reachable-CFG search: breadth-first order, soundness,
    closure, the block limit, prefix stability and the effect of following calls
    (src/analysis/r5900_reachability.cpp). */
module ReachabilityFacts {
  import opened Words
  import opened Options
  import opened MemoryMap
  import opened ControlFlow
  import opened Reachability

  // ---------------------------------------------------------------- the followed graph

  /** The block at p has an edge to t that the search follows. */
  predicate HasEdge(m: MapValue, o: ReachabilityOptions, p: U32, t: U32)
    requires WellFormed(m)
  {
    var r := BlockAt(m, o, p);
    r.BlockOk? && exists e :: e in r.block.ending.edges && Followed(e, o.followDirectCalls) == Some(t)
  }

  /** pc is at most k followed edges away from the entry. */
  ghost predicate Within(m: MapValue, o: ReachabilityOptions, entry: U32, pc: U32, k: nat)
    requires WellFormed(m)
    decreases k
  {
    if k == 0 then pc == entry
    else Within(m, o, entry, pc, k - 1) || exists p: U32 :: Within(m, o, entry, p, k - 1) && HasEdge(m, o, p, pc)
  }

  /** k is the shortest-path distance of pc from the entry. */
  ghost predicate IsDistance(m: MapValue, o: ReachabilityOptions, entry: U32, pc: U32, k: nat)
    requires WellFormed(m)
  {
    Within(m, o, entry, pc, k) && (k > 0 ==> !Within(m, o, entry, pc, k - 1))
  }

  lemma {:induction false} WithinMonotone(m: MapValue, o: ReachabilityOptions, entry: U32, pc: U32, a: nat, b: nat)
    requires WellFormed(m) && a <= b && Within(m, o, entry, pc, a)
    ensures Within(m, o, entry, pc, b)
    decreases b - a
  {
    hide HasEdge, WellFormed;
    if a < b {
      WithinMonotone(m, o, entry, pc, a, b - 1);
    }
  }

  lemma DistanceIsLeast(m: MapValue, o: ReachabilityOptions, entry: U32, pc: U32, k: nat, n: nat)
    requires WellFormed(m) && IsDistance(m, o, entry, pc, k) && Within(m, o, entry, pc, n)
    ensures k <= n
  {
    hide HasEdge, WellFormed, Within;
    if n < k {
      WithinMonotone(m, o, entry, pc, n, k - 1);
    }
  }

  // ---------------------------------------------------------------- the search invariant

  predicate Rooted(entry: U32, s: Search) {
    && |s.queue| > 0 && s.head <= |s.queue| && s.queue[0] == PendingTarget(entry, entry, true)
    && forall i :: 0 < i < |s.queue| ==> !s.queue[i].isEntry
  }

  /** Levels in the queue never decrease, and pending targets are on the level of
      the next one or one further. */
  predicate Levels(s: Search, levels: seq<nat>)
    requires 0 < |s.queue| && s.head <= |s.queue|
  {
    && |levels| == |s.queue| && levels[0] == 0
    && (forall i, j :: 0 <= i < j < |levels| ==> levels[i] <= levels[j])
    && (s.head < |levels| ==> forall i :: 0 <= i < |levels| ==> levels[i] <= levels[s.head] + 1)
  }

  /** Target i was queued by a visited block one level up. */
  predicate HasParent(m: MapValue, o: ReachabilityOptions, s: Search, levels: seq<nat>, i: nat)
    requires WellFormed(m) && i < |s.queue| == |levels|
  {
    exists j :: 0 <= j < i && j < s.head && s.queue[i].sourceBlock == s.queue[j].pc && levels[i] == levels[j] + 1 &&
                HasEdge(m, o, s.queue[j].pc, s.queue[i].pc)
  }

  predicate QueuedWithin(s: Search, levels: seq<nat>, pc: U32, k: nat)
    requires |s.queue| == |levels|
  {
    exists j :: 0 <= j < |s.queue| && s.queue[j].pc == pc && levels[j] <= k
  }

  /** Every followed target of visited target i is queued at most one level down. */
  predicate Expanded(m: MapValue, o: ReachabilityOptions, s: Search, levels: seq<nat>, i: nat)
    requires WellFormed(m) && i < |s.queue| == |levels|
  {
    forall t: U32 :: HasEdge(m, o, s.queue[i].pc, t) ==> QueuedWithin(s, levels, t, levels[i] + 1)
  }

  predicate SearchInv(m: MapValue, o: ReachabilityOptions, entry: U32, s: Search, levels: seq<nat>)
    requires WellFormed(m)
  {
    && Rooted(entry, s) && DistinctPcs(s.queue) && Levels(s, levels)
    && (forall i :: 0 < i < |s.queue| ==> HasParent(m, o, s, levels, i))
    && (forall i :: 0 <= i < s.head ==> Expanded(m, o, s, levels, i))
  }

  /** What queueing the targets of a block adds. */
  lemma {:induction false} EnqueueAllAdds(queue: seq<PendingTarget>, source: U32, edges: seq<Edge>, follow: bool)
    ensures var r := EnqueueAll(queue, source, edges, follow);
            && queue <= r
            && (forall i :: |queue| <= i < |r| ==>
                  !r[i].isEntry && r[i].sourceBlock == source &&
                  exists e :: e in edges && Followed(e, follow) == Some(r[i].pc))
            && (forall e :: e in edges && Followed(e, follow).Some? ==> Scheduled(r, Followed(e, follow).value))
    decreases |edges|
  {
    hide Followed;
    if |edges| > 0 {
      var next := Enqueue(queue, source, Followed(edges[0], follow));
      var r := EnqueueAll(next, source, edges[1..], follow);
      EnqueueAllAdds(next, source, edges[1..], follow);
      if Followed(edges[0], follow).Some? {
        var t := Followed(edges[0], follow).value;
        assert Scheduled(next, t) by {
          if !Scheduled(queue, t) {
            assert next[|queue|].pc == t;
          }
        }
        var i :| 0 <= i < |next| && next[i].pc == t;
        assert r[i].pc == t;
      }
      forall i | |queue| <= i < |r|
        ensures exists e :: e in edges && Followed(e, follow) == Some(r[i].pc)
      {
        if i < |next| {
          assert edges[0] in edges;
        } else {
          var e :| e in edges[1..] && Followed(e, follow) == Some(r[i].pc);
          assert e in edges;
        }
      }
    }
  }

  function NextLevels(s: Search, s': Search, levels: seq<nat>): seq<nat>
    requires s.head < |s.queue| == |levels| && |s.queue| <= |s'.queue|
  {
    levels + seq(|s'.queue| - |s.queue|, _ => levels[s.head] + 1)
  }

  /** The queue behind a visit: what is new, and that all followed targets are in it. */
  lemma VisitAdds(m: MapValue, o: ReachabilityOptions, s: Search)
    requires WellFormed(m) && s.head < |s.queue|
    ensures var s', p := Visit(m, o, s), s.queue[s.head].pc;
            && s.queue <= s'.queue
            && (forall i :: |s.queue| <= i < |s'.queue| ==>
                  !s'.queue[i].isEntry && s'.queue[i].sourceBlock == p && HasEdge(m, o, p, s'.queue[i].pc))
            && (forall t: U32 :: HasEdge(m, o, p, t) ==> Scheduled(s'.queue, t))
  {
    hide AnalyzeBlock, WellFormed, EnqueueAll, Followed;
    var p := s.queue[s.head].pc;
    var r := BlockAt(m, o, p);
    if r.BlockOk? {
      BlockStartsAt(m, o, p);
      EnqueueAllAdds(s.queue, p, r.block.ending.edges, o.followDirectCalls);
    }
  }

  lemma VisitDistinct(m: MapValue, o: ReachabilityOptions, s: Search)
    requires WellFormed(m) && s.head < |s.queue| && DistinctPcs(s.queue)
    ensures DistinctPcs(Visit(m, o, s).queue)
  {
    hide AnalyzeBlock, WellFormed, EnqueueAll, DistinctPcs;
    var r := BlockAt(m, o, s.queue[s.head].pc);
    if r.BlockOk? {
      EnqueueAllDistinct(s.queue, r.block.startPc, r.block.ending.edges, o.followDirectCalls);
    }
  }

  lemma VisitLevels(s: Search, s': Search, levels: seq<nat>)
    requires s.head < |s.queue| && s'.head == s.head + 1 && s.queue <= s'.queue && Levels(s, levels)
    ensures Levels(s', NextLevels(s, s', levels))
  {
  }

  lemma VisitParents(m: MapValue, o: ReachabilityOptions, s: Search, levels: seq<nat>, i: nat)
    requires WellFormed(m) && s.head < |s.queue| == |levels|
    requires 0 < i < |Visit(m, o, s).queue|
    requires i < |s.queue| ==> HasParent(m, o, s, levels, i)
    ensures var s' := Visit(m, o, s); |s.queue| <= |s'.queue| && HasParent(m, o, s', NextLevels(s, s', levels), i)
  {
    hide BlockAt, HasEdge, WellFormed, Visit;
    VisitAdds(m, o, s);
    var s' := Visit(m, o, s);
    if i < |s.queue| {
      var j :| 0 <= j < i && j < s.head && s.queue[i].sourceBlock == s.queue[j].pc && levels[i] == levels[j] + 1 &&
               HasEdge(m, o, s.queue[j].pc, s.queue[i].pc);
      assert s'.queue[j] == s.queue[j] && s'.queue[i] == s.queue[i];
    } else {
      assert s'.queue[s.head] == s.queue[s.head];
    }
  }

  lemma VisitExpands(m: MapValue, o: ReachabilityOptions, s: Search, levels: seq<nat>, i: nat)
    requires WellFormed(m) && s.head < |s.queue| && i <= s.head && Levels(s, levels)
    requires i < s.head ==> Expanded(m, o, s, levels, i)
    ensures var s' := Visit(m, o, s); |s.queue| <= |s'.queue| && Expanded(m, o, s', NextLevels(s, s', levels), i)
  {
    hide BlockAt, HasEdge, WellFormed, Visit;
    VisitAdds(m, o, s);
    var s' := Visit(m, o, s);
    var levels' := NextLevels(s, s', levels);
    assert s'.queue[i] == s.queue[i] && levels'[i] == levels[i];
    forall t: U32 | HasEdge(m, o, s'.queue[i].pc, t)
      ensures QueuedWithin(s', levels', t, levels[i] + 1)
    {
      if i < s.head {
        var j :| 0 <= j < |s.queue| && s.queue[j].pc == t && levels[j] <= levels[i] + 1;
        assert s'.queue[j] == s.queue[j] && levels'[j] == levels[j];
      } else {
        var j :| 0 <= j < |s'.queue| && s'.queue[j].pc == t;
        assert levels'[j] <= levels[i] + 1;
      }
    }
  }

  /** Every visit keeps the search invariant. */
  lemma VisitKeepsInv(m: MapValue, o: ReachabilityOptions, entry: U32, s: Search, levels: seq<nat>)
    requires WellFormed(m) && SearchInv(m, o, entry, s, levels) && s.head < |s.queue|
    ensures var s' := Visit(m, o, s);
            |s.queue| <= |s'.queue| && SearchInv(m, o, entry, s', NextLevels(s, s', levels))
  {
    hide BlockAt, HasEdge, WellFormed, Visit, Levels, DistinctPcs, HasParent, Expanded, NextLevels;
    var s' := Visit(m, o, s);
    assert |levels| == |s.queue| by {
      LevelsLength(s, levels);
    }
    VisitAdds(m, o, s);
    VisitDistinct(m, o, s);
    VisitLevels(s, s', levels);
    forall i | 0 < i < |s'.queue|
      ensures HasParent(m, o, s', NextLevels(s, s', levels), i)
    {
      VisitParents(m, o, s, levels, i);
    }
    forall i | 0 <= i < s'.head
      ensures Expanded(m, o, s', NextLevels(s, s', levels), i)
    {
      VisitExpands(m, o, s, levels, i);
    }
  }

  lemma LevelsLength(s: Search, levels: seq<nat>)
    requires 0 < |s.queue| && s.head <= |s.queue| && Levels(s, levels)
    ensures |levels| == |s.queue|
  {
  }

  predicate Finished(m: MapValue, o: ReachabilityOptions, s: Search)
    requires WellFormed(m) && s.head <= |s.queue|
  {
    s.head == |s.queue| || |BlocksOf(m, o, s.queue[..s.head])| == o.maxBlocks
  }

  /** The search ends in a finished state that satisfies the invariant. */
  lemma {:induction false} ExploreKeepsInv(m: MapValue, o: ReachabilityOptions, entry: U32, s: Search, levels: seq<nat>)
    returns (levels': seq<nat>)
    requires WellFormed(m) && SearchInv(m, o, entry, s, levels) && Explore(m, o, s).Explored?
    requires |BlocksOf(m, o, s.queue[..s.head])| <= o.maxBlocks
    ensures var f := Explore(m, o, s).search;
            && SearchInv(m, o, entry, f, levels') && Finished(m, o, f) && s.head <= f.head
            && |BlocksOf(m, o, f.queue[..f.head])| <= o.maxBlocks
    decreases 3 * (o.maxBlocks - |BlocksOf(m, o, s.queue[..s.head])|) + |s.queue| - s.head
  {
    hide BlockAt, HasEdge, WellFormed, Visit, SearchInv, BlocksOf, IssuesOf, VisitIssues, NextLevels;
    levels' := levels;
    InvBounds(m, o, entry, s, levels);
    if s.head < |s.queue| && |BlocksOf(m, o, s.queue[..s.head])| < o.maxBlocks {
      VisitKeepsInv(m, o, entry, s, levels);
      VisitAppends(m, o, s);
      levels' := ExploreKeepsInv(m, o, entry, Visit(m, o, s), NextLevels(s, Visit(m, o, s), levels));
    }
  }

  lemma InvBounds(m: MapValue, o: ReachabilityOptions, entry: U32, s: Search, levels: seq<nat>)
    requires WellFormed(m) && SearchInv(m, o, entry, s, levels)
    ensures s.head <= |s.queue| == |levels| && |s.queue| > 0
  {
  }

  /** Only the entry can fail the whole analysis. */
  lemma {:induction false} TargetsNeverFailTheSearch(m: MapValue, o: ReachabilityOptions, s: Search)
    requires WellFormed(m) && s.head <= |s.queue|
    requires forall i :: s.head <= i < |s.queue| ==> !s.queue[i].isEntry
    ensures Explore(m, o, s).Explored?
    decreases 3 * (o.maxBlocks - |BlocksOf(m, o, s.queue[..s.head])|) + |s.queue| - s.head
  {
    hide BlockAt, WellFormed, Visit, BlocksOf, HasEdge, IssuesOf, VisitIssues;
    if s.head < |s.queue| && |BlocksOf(m, o, s.queue[..s.head])| < o.maxBlocks {
      VisitAppends(m, o, s);
      VisitAdds(m, o, s);
      TargetsNeverFailTheSearch(m, o, Visit(m, o, s));
    }
  }

  /** The analysis succeeds exactly for a non-zero limit and an entry that
      analyzes; the failure says which of the two is missing. */
  lemma EntryDecides(m: MapValue, entry: U32, o: ReachabilityOptions)
    requires WellFormed(m)
    ensures var r := AnalyzeReachability(m, entry, o);
            && (r.ReachOk? <==> o.maxBlocks > 0 && BlockAt(m, o, entry).BlockOk?)
            && (r.ReachFailed? ==> (r.error == InvalidBlockLimit <==> o.maxBlocks == 0))
  {
    hide BlockAt, WellFormed, GraphOf, Visit, BlocksOf, HasEdge, IssuesOf, VisitIssues;
    var s := Start(entry);
    StartsEmpty(m, o, entry);
    if o.maxBlocks > 0 && BlockAt(m, o, entry).BlockOk? {
      VisitAppends(m, o, s);
      VisitAdds(m, o, s);
      TargetsNeverFailTheSearch(m, o, Visit(m, o, s));
    }
  }

  lemma StartInv(m: MapValue, o: ReachabilityOptions, entry: U32)
    requires WellFormed(m)
    ensures SearchInv(m, o, entry, Start(entry), [0])
  {
    hide BlockAt, HasEdge, WellFormed;
  }

  /** The final search state behind a successful analysis. */
  lemma FinalSearch(m: MapValue, entry: U32, o: ReachabilityOptions) returns (s: Search, levels: seq<nat>)
    requires WellFormed(m) && AnalyzeReachability(m, entry, o).ReachOk?
    ensures SearchInv(m, o, entry, s, levels) && 0 < s.head <= |s.queue| == |levels|
    ensures Explore(m, o, Start(entry)) == Explored(s) && o.maxBlocks > 0
    ensures AnalyzeReachability(m, entry, o).graph == GraphOf(m, o, entry, s)
    ensures Finished(m, o, s) && |BlocksOf(m, o, s.queue[..s.head])| <= o.maxBlocks
  {
    hide BlockAt, HasEdge, WellFormed, GraphOf, Visit, BlocksOf, IssuesOf, VisitIssues, SearchInv;
    s := Explore(m, o, Start(entry)).search;
    StartInv(m, o, entry);
    StartsEmpty(m, o, entry);
    levels := ExploreKeepsInv(m, o, entry, Start(entry), [0]);
    InvBounds(m, o, entry, s, levels);
  }

  // ---------------------------------------------------------------- levels are distances

  lemma InvParts(m: MapValue, o: ReachabilityOptions, entry: U32, s: Search, levels: seq<nat>)
    requires WellFormed(m) && SearchInv(m, o, entry, s, levels)
    ensures s.head <= |s.queue| == |levels| && |s.queue| > 0 && s.queue[0].pc == entry && levels[0] == 0
    ensures DistinctPcs(s.queue)
    ensures forall i, j :: 0 <= i < j < |levels| ==> levels[i] <= levels[j]
    ensures forall i :: 0 < i < |s.queue| ==> HasParent(m, o, s, levels, i)
    ensures forall i :: 0 <= i < s.head ==> Expanded(m, o, s, levels, i)
  {
    hide HasParent, Expanded, DistinctPcs, WellFormed;
  }

  lemma {:induction false} QueuedIsWithin(m: MapValue, o: ReachabilityOptions, entry: U32, s: Search,
                                          levels: seq<nat>, i: nat)
    requires WellFormed(m) && SearchInv(m, o, entry, s, levels) && i < |s.queue|
    ensures |levels| == |s.queue| && Within(m, o, entry, s.queue[i].pc, levels[i])
    decreases i
  {
    hide SearchInv, WellFormed, HasEdge;
    InvParts(m, o, entry, s, levels);
    if i > 0 {
      assert HasParent(m, o, s, levels, i);
      var j :| 0 <= j < i && j < s.head && s.queue[i].sourceBlock == s.queue[j].pc && levels[i] == levels[j] + 1 &&
               HasEdge(m, o, s.queue[j].pc, s.queue[i].pc);
      QueuedIsWithin(m, o, entry, s, levels, j);
    }
  }

  predicate PendingBelow(s: Search, levels: seq<nat>, k: nat)
    requires |s.queue| == |levels|
  {
    exists j :: s.head <= j < |s.queue| && levels[j] < k
  }

  /** Whatever is within k edges is queued on a level of at most k, or a target on
      a level below k is still pending. */
  lemma {:induction false} WithinIsQueued(m: MapValue, o: ReachabilityOptions, entry: U32, s: Search, levels: seq<nat>,
                                          pc: U32, k: nat)
    requires WellFormed(m) && SearchInv(m, o, entry, s, levels) && Within(m, o, entry, pc, k)
    ensures |levels| == |s.queue| && (QueuedWithin(s, levels, pc, k) || PendingBelow(s, levels, k))
    decreases k
  {
    hide SearchInv, WellFormed, HasEdge, DistinctPcs, HasParent;
    InvParts(m, o, entry, s, levels);
    if k > 0 {
      if Within(m, o, entry, pc, k - 1) {
        WithinIsQueued(m, o, entry, s, levels, pc, k - 1);
      } else {
        var p: U32 :| Within(m, o, entry, p, k - 1) && HasEdge(m, o, p, pc);
        WithinIsQueued(m, o, entry, s, levels, p, k - 1);
        if QueuedWithin(s, levels, p, k - 1) {
          var j :| 0 <= j < |s.queue| && s.queue[j].pc == p && levels[j] <= k - 1;
          assert j < s.head ==> Expanded(m, o, s, levels, j);
        }
      }
    }
  }

  lemma VisitedIsNotNearer(m: MapValue, o: ReachabilityOptions, entry: U32, s: Search, levels: seq<nat>, i: nat, k: nat)
    requires WellFormed(m) && SearchInv(m, o, entry, s, levels) && i < s.head <= |s.queue|
    requires Within(m, o, entry, s.queue[i].pc, k)
    ensures |levels| == |s.queue| && levels[i] <= k
  {
    hide SearchInv, WellFormed, HasEdge, HasParent, Expanded, Within;
    InvParts(m, o, entry, s, levels);
    WithinIsQueued(m, o, entry, s, levels, s.queue[i].pc, k);
    if PendingBelow(s, levels, k) {
      var j :| s.head <= j < |s.queue| && levels[j] < k;
      assert levels[i] <= levels[j];
    } else {
      var j :| 0 <= j < |s.queue| && s.queue[j].pc == s.queue[i].pc && levels[j] <= k;
      assert j == i;
    }
  }

  /** The level of a visited target is its distance. */
  lemma LevelIsDistance(m: MapValue, o: ReachabilityOptions, entry: U32, s: Search, levels: seq<nat>, i: nat)
    requires WellFormed(m) && SearchInv(m, o, entry, s, levels) && i < s.head <= |s.queue|
    ensures |levels| == |s.queue| && IsDistance(m, o, entry, s.queue[i].pc, levels[i])
  {
    hide SearchInv, WellFormed, HasEdge, Within;
    QueuedIsWithin(m, o, entry, s, levels, i);
    if levels[i] > 0 && Within(m, o, entry, s.queue[i].pc, levels[i] - 1) {
      VisitedIsNotNearer(m, o, entry, s, levels, i, levels[i] - 1);
    }
  }

  // ---------------------------------------------------------------- blocks and visited targets

  lemma {:induction false} VisitedBlock(m: MapValue, o: ReachabilityOptions, visited: seq<PendingTarget>, i: nat)
    requires WellFormed(m) && i < |visited| && BlockAt(m, o, visited[i].pc).BlockOk?
    ensures BlockAt(m, o, visited[i].pc).block in BlocksOf(m, o, visited)
    decreases |visited|
  {
    hide BlockAt, WellFormed;
    if i < |visited| - 1 {
      VisitedBlock(m, o, visited[..|visited| - 1], i);
    }
  }

  /** Blocks are listed in the order their targets were visited. */
  lemma {:induction false} BlockOriginsOrdered(m: MapValue, o: ReachabilityOptions, visited: seq<PendingTarget>,
                                               a: nat, b: nat)
    returns (i: nat, j: nat)
    requires WellFormed(m) && a < b < |BlocksOf(m, o, visited)|
    ensures i < j < |visited|
    ensures BlocksOf(m, o, visited)[a].startPc == visited[i].pc && BlocksOf(m, o, visited)[b].startPc == visited[j].pc
    decreases |visited|
  {
    hide BlockAt, WellFormed;
    var last := |visited| - 1;
    if b < |BlocksOf(m, o, visited[..last])| {
      i, j := BlockOriginsOrdered(m, o, visited[..last], a, b);
    } else {
      i := BlockOrigin(m, o, visited[..last], a);
      j := last;
      BlockStartsAt(m, o, visited[last].pc);
    }
  }

  /** A block listed in the graph, with its level and its origin in the queue. */
  lemma BlockInQueue(m: MapValue, entry: U32, o: ReachabilityOptions, s: Search, levels: seq<nat>, k: nat)
    returns (i: nat)
    requires WellFormed(m) && SearchInv(m, o, entry, s, levels) && s.head <= |s.queue| == |levels|
    requires k < |GraphOf(m, o, entry, s).blocks|
    ensures var b := GraphOf(m, o, entry, s).blocks[k];
            && i < s.head && s.queue[i].pc == b.startPc && BlockAt(m, o, b.startPc) == BlockOk(b)
            && IsDistance(m, o, entry, b.startPc, levels[i])
  {
    hide SearchInv, BlockAt, WellFormed, IsDistance, OverlapIssues, CallsOf, BlocksOf, IssuesOf;
    i := BlockOrigin(m, o, s.queue[..s.head], k);
    LevelIsDistance(m, o, entry, s, levels, i);
  }

  // ---------------------------------------------------------------- soundness and order

  /** Soundness: the entry is the first block; starts are distinct; every block is
      the analysis of its start PC, which is reachable from the entry over
      followed edges; the limit is kept. */
  lemma ReachabilityIsSound(m: MapValue, entry: U32, o: ReachabilityOptions, k: nat)
    requires WellFormed(m) && AnalyzeReachability(m, entry, o).ReachOk?
    ensures var blocks := AnalyzeReachability(m, entry, o).graph.blocks;
            && 0 < |blocks| <= o.maxBlocks && DistinctStarts(blocks) && blocks[0].startPc == entry
            && (k < |blocks| ==>
                  && BlockAt(m, o, blocks[k].startPc) == BlockOk(blocks[k])
                  && exists d: nat :: IsDistance(m, o, entry, blocks[k].startPc, d))
  {
    hide SearchInv, BlockAt, WellFormed, IsDistance, AnalyzeReachability, OverlapIssues, CallsOf, BlocksOf, IssuesOf,
      Explore, DistinctStarts;
    var s, levels := FinalSearch(m, entry, o);
    InvParts(m, o, entry, s, levels);
    DistinctBlocks(m, o, s.queue[..s.head]);
    EntryDecides(m, entry, o);
    FirstBlock(m, o, s.queue[..s.head]);
    BlockStartsAt(m, o, entry);
    if k < |GraphOf(m, o, entry, s).blocks| {
      var i := BlockInQueue(m, entry, o, s, levels, k);
    }
  }

  lemma {:induction false} FirstBlock(m: MapValue, o: ReachabilityOptions, visited: seq<PendingTarget>)
    requires WellFormed(m) && |visited| > 0 && BlockAt(m, o, visited[0].pc).BlockOk?
    ensures var blocks := BlocksOf(m, o, visited); |blocks| > 0 && blocks[0] == BlockAt(m, o, visited[0].pc).block
    decreases |visited|
  {
    hide BlockAt, WellFormed;
    if |visited| > 1 {
      FirstBlock(m, o, visited[..|visited| - 1]);
    }
  }

  /** Breadth-first order: the blocks are listed in non-decreasing shortest-path
      distance from the entry. */
  lemma BreadthFirst(m: MapValue, entry: U32, o: ReachabilityOptions, a: nat, b: nat, da: nat, db: nat)
    requires WellFormed(m) && AnalyzeReachability(m, entry, o).ReachOk?
    requires a < b < |AnalyzeReachability(m, entry, o).graph.blocks|
    requires IsDistance(m, o, entry, AnalyzeReachability(m, entry, o).graph.blocks[a].startPc, da)
    requires IsDistance(m, o, entry, AnalyzeReachability(m, entry, o).graph.blocks[b].startPc, db)
    ensures da <= db
  {
    hide SearchInv, BlockAt, WellFormed, AnalyzeReachability, OverlapIssues, CallsOf, BlocksOf, IssuesOf, Explore,
      Within, HasParent, Expanded;
    var s, levels := FinalSearch(m, entry, o);
    InvParts(m, o, entry, s, levels);
    var i, j := BlockOriginsOrdered(m, o, s.queue[..s.head], a, b);
    LevelIsDistance(m, o, entry, s, levels, i);
    LevelIsDistance(m, o, entry, s, levels, j);
    DistanceIsLeast(m, o, entry, s.queue[i].pc, da, levels[i]);
    DistanceIsLeast(m, o, entry, s.queue[j].pc, levels[j], db);
  }

  /** A target that analyzes but was left out is at least as far from the entry as
      every block that was included. */
  lemma NothingNearerIsOmitted(m: MapValue, entry: U32, o: ReachabilityOptions, b: nat, db: nat, t: U32, dt: nat)
    requires WellFormed(m) && AnalyzeReachability(m, entry, o).ReachOk?
    requires b < |AnalyzeReachability(m, entry, o).graph.blocks|
    requires IsDistance(m, o, entry, AnalyzeReachability(m, entry, o).graph.blocks[b].startPc, db)
    requires Within(m, o, entry, t, dt) && BlockAt(m, o, t).BlockOk?
    requires BlockAt(m, o, t).block !in AnalyzeReachability(m, entry, o).graph.blocks
    ensures db <= dt
  {
    hide SearchInv, BlockAt, WellFormed, AnalyzeReachability, OverlapIssues, CallsOf, BlocksOf, IssuesOf, Explore,
      Within, HasParent, Expanded;
    var s, levels := FinalSearch(m, entry, o);
    InvParts(m, o, entry, s, levels);
    var i := BlockInQueue(m, entry, o, s, levels, b);
    DistanceIsLeast(m, o, entry, s.queue[i].pc, db, levels[i]);
    WithinIsQueued(m, o, entry, s, levels, t, dt);
    if QueuedWithin(s, levels, t, dt) {
      var j :| 0 <= j < |s.queue| && s.queue[j].pc == t && levels[j] <= dt;
      if j < s.head {
        VisitedBlock(m, o, s.queue[..s.head], j);
      }
    }
  }

  // ---------------------------------------------------------------- closure and the block limit

  predicate LimitReached(issues: seq<Issue>) {
    exists x :: x in issues && x.kind == BlockLimitReached
  }

  predicate FailedTarget(issues: seq<Issue>, t: U32) {
    exists x :: x in issues && x.kind == TargetAnalysisFailed && x.target == Some(t)
  }

  predicate IsBlock(blocks: seq<BasicBlock>, t: U32) {
    exists b :: b in blocks && b.startPc == t
  }

  /** Every followed edge of an included block leads to an included block or to a
      target whose analysis failed. */
  predicate Closed(m: MapValue, o: ReachabilityOptions, g: Graph)
    requires WellFormed(m)
  {
    forall b, t: U32 :: b in g.blocks && HasEdge(m, o, b.startPc, t) ==>
      IsBlock(g.blocks, t) || FailedTarget(g.issues, t)
  }

  lemma {:induction false} IssueOrigin(m: MapValue, o: ReachabilityOptions, visited: seq<PendingTarget>, x: Issue)
    returns (i: nat)
    requires WellFormed(m) && x in IssuesOf(m, o, visited)
    ensures i < |visited| && x in VisitIssues(m, o, visited[i])
    decreases |visited|
  {
    hide VisitIssues, WellFormed;
    var last := |visited| - 1;
    if x in IssuesOf(m, o, visited[..last]) {
      i := IssueOrigin(m, o, visited[..last], x);
    } else {
      i := last;
    }
  }

  lemma {:induction false} VisitedIssue(m: MapValue, o: ReachabilityOptions, visited: seq<PendingTarget>, i: nat,
                                        x: Issue)
    requires WellFormed(m) && i < |visited| && x in VisitIssues(m, o, visited[i])
    ensures x in IssuesOf(m, o, visited)
    decreases |visited|
  {
    hide VisitIssues, WellFormed;
    if i < |visited| - 1 {
      VisitedIssue(m, o, visited[..|visited| - 1], i, x);
    }
  }

  lemma {:induction false} IndirectExitKinds(source: U32, edges: seq<Edge>, x: Issue)
    requires x in IndirectExits(source, edges)
    ensures x.kind == UnresolvedIndirectExit
    decreases |edges|
  {
    if x !in IndirectExit(source, edges[0]) {
      IndirectExitKinds(source, edges[1..], x);
    }
  }

  lemma VisitIssueKinds(m: MapValue, o: ReachabilityOptions, pending: PendingTarget, x: Issue)
    requires WellFormed(m) && x in VisitIssues(m, o, pending)
    ensures var r := BlockAt(m, o, pending.pc);
            if r.BlockFailed? then x == TargetFailure(pending, r.error) else x.kind == UnresolvedIndirectExit
  {
    hide BlockAt, WellFormed, IndirectExits;
    var r := BlockAt(m, o, pending.pc);
    if r.BlockOk? {
      IndirectExitKinds(r.block.startPc, r.block.ending.edges, x);
    }
  }

  predicate OverlapKind(kind: IssueKind) { kind == LeaderInsideBlock || kind == LeaderInsideDelaySlot }

  lemma {:induction false} LeaderIssueOrigin(leader: U32, blocks: seq<BasicBlock>, x: Issue)
    ensures x in LeaderIssues(leader, blocks) <==> exists b :: b in blocks && x in PairIssues(leader, b)
    decreases |blocks|
  {
    hide PairIssues;
    if |blocks| > 0 {
      LeaderIssueOrigin(leader, blocks[..|blocks| - 1], x);
    }
  }

  lemma {:induction false} OverlapOrigin(leaders: seq<BasicBlock>, blocks: seq<BasicBlock>, x: Issue)
    ensures x in OverlapIssues(leaders, blocks) <==>
            exists l, b :: l in leaders && b in blocks && x in PairIssues(l.startPc, b)
    decreases |leaders|
  {
    hide PairIssues, LeaderIssues;
    if |leaders| > 0 {
      OverlapOrigin(leaders[..|leaders| - 1], blocks, x);
      LeaderIssueOrigin(leaders[|leaders| - 1].startPc, blocks, x);
    }
  }

  lemma OverlapKinds(leaders: seq<BasicBlock>, blocks: seq<BasicBlock>, x: Issue)
    requires x in OverlapIssues(leaders, blocks)
    ensures OverlapKind(x.kind)
  {
    hide OverlapIssues, LeaderIsInside, LeaderIsDelaySlot;
    OverlapOrigin(leaders, blocks, x);
  }

  /** Where each kind of issue in the graph comes from. */
  lemma GraphIssue(m: MapValue, o: ReachabilityOptions, entry: U32, s: Search, x: Issue)
    requires WellFormed(m) && s.head <= |s.queue|
    ensures var g := GraphOf(m, o, entry, s);
            && (x.kind == BlockLimitReached ==> (x in g.issues <==> x in LimitIssue(s)))
            && (x.kind == TargetAnalysisFailed ==> (x in g.issues <==> x in IssuesOf(m, o, s.queue[..s.head])))
            && (OverlapKind(x.kind) ==> (x in g.issues <==> x in OverlapIssues(g.blocks, g.blocks)))
  {
    hide BlockAt, WellFormed, OverlapIssues, IssuesOf, VisitIssues, BlocksOf, CallsOf;
    var blocks := BlocksOf(m, o, s.queue[..s.head]);
    if x in OverlapIssues(blocks, blocks) {
      OverlapKinds(blocks, blocks, x);
    }
    if x in IssuesOf(m, o, s.queue[..s.head]) {
      var i := IssueOrigin(m, o, s.queue[..s.head], x);
      VisitIssueKinds(m, o, s.queue[i], x);
    }
  }

  lemma GraphLimit(m: MapValue, o: ReachabilityOptions, entry: U32, s: Search)
    requires WellFormed(m) && s.head <= |s.queue|
    ensures LimitReached(GraphOf(m, o, entry, s).issues) <==> s.head < |s.queue|
  {
    hide BlockAt, WellFormed, GraphOf;
    var g := GraphOf(m, o, entry, s);
    if s.head < |s.queue| {
      var x := LimitIssue(s)[0];
      GraphIssue(m, o, entry, s, x);
    } else if LimitReached(g.issues) {
      var x :| x in g.issues && x.kind == BlockLimitReached;
      GraphIssue(m, o, entry, s, x);
    }
  }

  /** A visited target is a block or a failed target. */
  lemma VisitedIsAccounted(m: MapValue, o: ReachabilityOptions, entry: U32, s: Search, j: nat)
    requires WellFormed(m) && j < s.head <= |s.queue|
    ensures var g := GraphOf(m, o, entry, s); IsBlock(g.blocks, s.queue[j].pc) || FailedTarget(g.issues, s.queue[j].pc)
  {
    hide BlockAt, WellFormed, OverlapIssues, IssuesOf, BlocksOf, CallsOf;
    var r := BlockAt(m, o, s.queue[j].pc);
    if r.BlockOk? {
      VisitedBlock(m, o, s.queue[..s.head], j);
      BlockStartsAt(m, o, s.queue[j].pc);
    } else {
      var x := TargetFailure(s.queue[j], r.error);
      VisitedIssue(m, o, s.queue[..s.head], j, x);
      assert x in GraphOf(m, o, entry, s).issues;
    }
  }

  lemma AccountedIsVisited(m: MapValue, o: ReachabilityOptions, entry: U32, s: Search, t: U32)
    requires WellFormed(m) && s.head <= |s.queue|
    requires var g := GraphOf(m, o, entry, s); IsBlock(g.blocks, t) || FailedTarget(g.issues, t)
    ensures exists j :: 0 <= j < s.head && s.queue[j].pc == t
  {
    hide BlockAt, WellFormed, OverlapIssues, IssuesOf, BlocksOf, CallsOf, VisitIssues;
    var g := GraphOf(m, o, entry, s);
    if IsBlock(g.blocks, t) {
      var k :| 0 <= k < |g.blocks| && g.blocks[k].startPc == t;
      var j := BlockOrigin(m, o, s.queue[..s.head], k);
    } else {
      var x :| x in g.issues && x.kind == TargetAnalysisFailed && x.target == Some(t);
      GraphIssue(m, o, entry, s, x);
      var j := IssueOrigin(m, o, s.queue[..s.head], x);
      VisitIssueKinds(m, o, s.queue[j], x);
    }
  }

  lemma FinishedIsClosed(m: MapValue, entry: U32, o: ReachabilityOptions, s: Search, levels: seq<nat>)
    requires WellFormed(m) && SearchInv(m, o, entry, s, levels) && s.head == |s.queue|
    ensures Closed(m, o, GraphOf(m, o, entry, s))
  {
    hide SearchInv, BlockAt, HasEdge, WellFormed, GraphOf, IsBlock, FailedTarget, HasParent, DistinctPcs;
    InvParts(m, o, entry, s, levels);
    var g := GraphOf(m, o, entry, s);
    forall b, t: U32 | b in g.blocks && HasEdge(m, o, b.startPc, t)
      ensures IsBlock(g.blocks, t) || FailedTarget(g.issues, t)
    {
      var k :| 0 <= k < |g.blocks| && g.blocks[k] == b;
      var i := BlockInQueue(m, entry, o, s, levels, k);
      assert Expanded(m, o, s, levels, i);
      var j :| 0 <= j < |s.queue| && s.queue[j].pc == t && levels[j] <= levels[i] + 1;
      VisitedIsAccounted(m, o, entry, s, j);
    }
  }

  lemma EdgeSource(m: MapValue, o: ReachabilityOptions, p: U32, t: U32)
    requires WellFormed(m) && HasEdge(m, o, p, t)
    ensures BlockAt(m, o, p).BlockOk?
  {
    hide AnalyzeBlock, WellFormed;
  }

  lemma UnfinishedIsOpen(m: MapValue, entry: U32, o: ReachabilityOptions, s: Search, levels: seq<nat>)
    requires WellFormed(m) && SearchInv(m, o, entry, s, levels) && 0 < s.head < |s.queue|
    ensures !Closed(m, o, GraphOf(m, o, entry, s))
  {
    hide SearchInv, BlockAt, WellFormed, GraphOf, IsBlock, FailedTarget, Expanded;
    InvParts(m, o, entry, s, levels);
    var g, t := GraphOf(m, o, entry, s), s.queue[s.head].pc;
    assert HasParent(m, o, s, levels, s.head);
    var j :| 0 <= j < s.head && HasEdge(m, o, s.queue[j].pc, t);
    EdgeSource(m, o, s.queue[j].pc, t);
    BlockOfVisited(m, o, entry, s, j);
    BlockStartsAt(m, o, s.queue[j].pc);
    var b := BlockAt(m, o, s.queue[j].pc).block;
    if IsBlock(g.blocks, t) || FailedTarget(g.issues, t) {
      AccountedIsVisited(m, o, entry, s, t);
      assert false;
    }
    assert b in g.blocks && HasEdge(m, o, b.startPc, t);
  }

  lemma BlockOfVisited(m: MapValue, o: ReachabilityOptions, entry: U32, s: Search, j: nat)
    requires WellFormed(m) && j < s.head <= |s.queue| && BlockAt(m, o, s.queue[j].pc).BlockOk?
    ensures BlockAt(m, o, s.queue[j].pc).block in GraphOf(m, o, entry, s).blocks
  {
    hide BlockAt, WellFormed, OverlapIssues, IssuesOf, BlocksOf, CallsOf;
    VisitedBlock(m, o, s.queue[..s.head], j);
  }

  /** Closure: a block limit issue appears exactly when some followed edge of an
      included block leads to a target left unexamined, and then the limit is used
      up. Without one the graph is closed. */
  lemma LimitIffOpen(m: MapValue, entry: U32, o: ReachabilityOptions)
    requires WellFormed(m) && AnalyzeReachability(m, entry, o).ReachOk?
    ensures var g := AnalyzeReachability(m, entry, o).graph;
            && (LimitReached(g.issues) <==> !Closed(m, o, g))
            && (LimitReached(g.issues) ==> |g.blocks| == o.maxBlocks)
  {
    hide SearchInv, BlockAt, WellFormed, AnalyzeReachability, Explore, Closed, LimitReached, OverlapIssues, IssuesOf,
      BlocksOf, CallsOf;
    var s, levels := FinalSearch(m, entry, o);
    GraphLimit(m, o, entry, s);
    if s.head < |s.queue| {
      UnfinishedIsOpen(m, entry, o, s, levels);
    } else {
      FinishedIsClosed(m, entry, o, s, levels);
    }
  }

  // ---------------------------------------------------------------- failed targets

  lemma {:induction false} ScanErrors(m: MapValue, requireExecutable: bool, pc: U32, limit: nat)
    requires WellFormed(m)
    ensures var r := Scan(m, requireExecutable, pc, limit);
            r.ScanFailed? ==> r.error !in {InvalidInstructionLimit, UnalignedStart}
    decreases limit
  {
    hide FetchSite, WellFormed, ToU32;
    if limit > 0 {
      ScanErrors(m, requireExecutable, ToU32(pc + 4), limit - 1);
    }
  }

  /** Following an edge never starts a block at an unaligned PC or with a zero
      instruction limit. */
  lemma FollowedTargetError(m: MapValue, o: ReachabilityOptions, p: U32, t: U32)
    requires WellFormed(m) && HasEdge(m, o, p, t) && BlockAt(m, o, t).BlockFailed?
    ensures BlockAt(m, o, t).error !in {InvalidInstructionLimit, UnalignedStart}
  {
    hide Scan, WellFormed;
    BlockEdges(m, p, o.blockOptions);
    var e :| e in BlockAt(m, o, p).block.ending.edges && Followed(e, o.followDirectCalls) == Some(t);
    assert AlignedEdge(e);
    ScanErrors(m, o.blockOptions.requireExecutable, t, o.blockOptions.maxInstructions);
  }

  /** A target failure names an included block, a followed edge of it, and the error
      its target's analysis fails with, which is never an unaligned start or a zero
      instruction limit. */
  lemma TargetFailuresAreGenuine(m: MapValue, entry: U32, o: ReachabilityOptions, x: Issue)
    requires WellFormed(m) && AnalyzeReachability(m, entry, o).ReachOk?
    requires x in AnalyzeReachability(m, entry, o).graph.issues && x.kind == TargetAnalysisFailed
    ensures x.target.Some? && x.analysisError.Some? && x.relatedBlock.None?
    ensures IsBlock(AnalyzeReachability(m, entry, o).graph.blocks, x.sourceBlock)
    ensures HasEdge(m, o, x.sourceBlock, x.target.value)
    ensures BlockAt(m, o, x.target.value) == BlockFailed(x.analysisError.value)
    ensures x.analysisError.value !in {InvalidInstructionLimit, UnalignedStart}
  {
    hide SearchInv, BlockAt, WellFormed, AnalyzeReachability, Explore, OverlapIssues, IssuesOf, VisitIssues, BlocksOf,
      CallsOf, Expanded, GraphOf;
    var s, levels := FinalSearch(m, entry, o);
    InvParts(m, o, entry, s, levels);
    GraphIssue(m, o, entry, s, x);
    var i := IssueOrigin(m, o, s.queue[..s.head], x);
    VisitIssueKinds(m, o, s.queue[i], x);
    EntryDecides(m, entry, o);
    assert i > 0;
    assert HasParent(m, o, s, levels, i);
    var j :| 0 <= j < i && s.queue[i].sourceBlock == s.queue[j].pc && HasEdge(m, o, s.queue[j].pc, s.queue[i].pc);
    EdgeSource(m, o, s.queue[j].pc, s.queue[i].pc);
    FollowedTargetError(m, o, s.queue[j].pc, s.queue[i].pc);
    BlockOfVisited(m, o, entry, s, j);
    BlockStartsAt(m, o, s.queue[j].pc);
  }


  // ---------------------------------------------------------------- prefix stability

  lemma {:induction false} ExploreExtends(m: MapValue, o: ReachabilityOptions, s: Search)
    requires WellFormed(m) && s.head <= |s.queue| && Explore(m, o, s).Explored?
    ensures var f := Explore(m, o, s).search; s.head <= f.head && s.queue[..s.head] <= f.queue[..f.head]
    decreases 3 * (o.maxBlocks - |BlocksOf(m, o, s.queue[..s.head])|) + |s.queue| - s.head
  {
    hide BlockAt, WellFormed, Visit, BlocksOf, IssuesOf, VisitIssues;
    if s.head < |s.queue| && |BlocksOf(m, o, s.queue[..s.head])| < o.maxBlocks {
      VisitAppends(m, o, s);
      var s' := Visit(m, o, s);
      ExploreExtends(m, o, s');
      assert s.queue[..s.head] <= s'.queue[..s'.head];
    }
  }

  lemma {:induction false} SameBlocks(m: MapValue, o: ReachabilityOptions, n: U64, visited: seq<PendingTarget>)
    requires WellFormed(m)
    ensures BlocksOf(m, o.(maxBlocks := n), visited) == BlocksOf(m, o, visited)
    decreases |visited|
  {
    hide AnalyzeBlock, WellFormed;
    if |visited| > 0 {
      SameBlocks(m, o, n, visited[..|visited| - 1]);
    }
  }

  lemma SameVisit(m: MapValue, o: ReachabilityOptions, n: U64, s: Search)
    requires WellFormed(m) && s.head < |s.queue|
    ensures Visit(m, o.(maxBlocks := n), s) == Visit(m, o, s)
    ensures BlockAt(m, o.(maxBlocks := n), s.queue[s.head].pc) == BlockAt(m, o, s.queue[s.head].pc)
  {
    hide AnalyzeBlock, WellFormed, EnqueueAll;
  }

  /** With a larger block limit the search makes the same visits, and then more. */
  lemma {:induction false} LargerLimitVisitsMore(m: MapValue, o: ReachabilityOptions, n: U64, s: Search)
    requires WellFormed(m) && s.head <= |s.queue| && o.maxBlocks <= n
    requires Explore(m, o, s).Explored? && Explore(m, o.(maxBlocks := n), s).Explored?
    ensures var f, f' := Explore(m, o, s).search, Explore(m, o.(maxBlocks := n), s).search;
            f.head <= f'.head && f.queue[..f.head] <= f'.queue[..f'.head]
    decreases 3 * (o.maxBlocks - |BlocksOf(m, o, s.queue[..s.head])|) + |s.queue| - s.head
  {
    hide BlockAt, WellFormed, Visit, BlocksOf, IssuesOf, VisitIssues;
    SameBlocks(m, o, n, s.queue[..s.head]);
    if s.head < |s.queue| && |BlocksOf(m, o, s.queue[..s.head])| < o.maxBlocks {
      VisitAppends(m, o, s);
      SameVisit(m, o, n, s);
      LargerLimitVisitsMore(m, o, n, Visit(m, o, s));
    } else {
      ExploreExtends(m, o.(maxBlocks := n), s);
    }
  }

  lemma {:induction false} BlocksOfPrefix(m: MapValue, o: ReachabilityOptions, a: seq<PendingTarget>,
                                          b: seq<PendingTarget>)
    requires WellFormed(m) && a <= b
    ensures BlocksOf(m, o, a) <= BlocksOf(m, o, b)
    decreases |b|
  {
    hide BlockAt, WellFormed;
    if |a| < |b| {
      BlocksOfPrefix(m, o, a, b[..|b| - 1]);
    } else {
      assert a == b;
    }
  }

  lemma {:induction false} CallsOfPrefix(a: seq<BasicBlock>, b: seq<BasicBlock>)
    requires a <= b
    ensures CallsOf(a) <= CallsOf(b)
    decreases |b|
  {
    hide EdgeCalls, TerminatorPc;
    if |a| < |b| {
      CallsOfPrefix(a, b[..|b| - 1]);
    } else {
      assert a == b;
    }
  }

  /** Prefix stability: the blocks and calls found with a smaller block limit are
      prefixes of those found with a larger one. */
  lemma PrefixStability(m: MapValue, entry: U32, o: ReachabilityOptions, n: U64)
    requires WellFormed(m) && o.maxBlocks <= n && AnalyzeReachability(m, entry, o).ReachOk?
    ensures var r, r' := AnalyzeReachability(m, entry, o), AnalyzeReachability(m, entry, o.(maxBlocks := n));
            r'.ReachOk? && r.graph.blocks <= r'.graph.blocks && r.graph.calls <= r'.graph.calls
  {
    hide AnalyzeBlock, WellFormed, Explore, OverlapIssues, CallsOf, BlocksOf, IssuesOf;
    var o' := o.(maxBlocks := n);
    EntryDecides(m, entry, o);
    EntryDecides(m, entry, o');
    LargerLimitVisitsMore(m, o, n, Start(entry));
    var f, f' := Explore(m, o, Start(entry)).search, Explore(m, o', Start(entry)).search;
    SameBlocks(m, o, n, f'.queue[..f'.head]);
    BlocksOfPrefix(m, o, f.queue[..f.head], f'.queue[..f'.head]);
    CallsOfPrefix(BlocksOf(m, o, f.queue[..f.head]), BlocksOf(m, o, f'.queue[..f'.head]));
  }

  // ---------------------------------------------------------------- following direct calls

  /** The same analysis, following at least as many edges. */
  predicate FollowsMore(o: ReachabilityOptions, o': ReachabilityOptions) {
    o'.blockOptions == o.blockOptions && (o.followDirectCalls ==> o'.followDirectCalls)
  }

  lemma HasEdgeMonotone(m: MapValue, o: ReachabilityOptions, o': ReachabilityOptions, p: U32, t: U32)
    requires WellFormed(m) && FollowsMore(o, o') && HasEdge(m, o, p, t)
    ensures HasEdge(m, o', p, t)
  {
    hide AnalyzeBlock, WellFormed;
    var e :| e in BlockAt(m, o, p).block.ending.edges && Followed(e, o.followDirectCalls) == Some(t);
    assert Followed(e, o'.followDirectCalls) == Some(t);
  }

  lemma {:induction false} WithinFollowsMore(m: MapValue, o: ReachabilityOptions, o': ReachabilityOptions, entry: U32,
                                             pc: U32, k: nat)
    requires WellFormed(m) && FollowsMore(o, o') && Within(m, o, entry, pc, k)
    ensures Within(m, o', entry, pc, k)
    decreases k
  {
    hide HasEdge, WellFormed, FollowsMore;
    if k > 0 {
      if Within(m, o, entry, pc, k - 1) {
        WithinFollowsMore(m, o, o', entry, pc, k - 1);
      } else {
        var p: U32 :| Within(m, o, entry, p, k - 1) && HasEdge(m, o, p, pc);
        WithinFollowsMore(m, o, o', entry, p, k - 1);
        HasEdgeMonotone(m, o, o', p, pc);
      }
    }
  }

  /** Completeness: without a block limit issue every reachable target that
      analyzes is in the graph. */
  lemma UntruncatedIsComplete(m: MapValue, entry: U32, o: ReachabilityOptions, pc: U32, k: nat)
    requires WellFormed(m) && AnalyzeReachability(m, entry, o).ReachOk?
    requires !LimitReached(AnalyzeReachability(m, entry, o).graph.issues)
    requires Within(m, o, entry, pc, k) && BlockAt(m, o, pc).BlockOk?
    ensures BlockAt(m, o, pc).block in AnalyzeReachability(m, entry, o).graph.blocks
  {
    hide SearchInv, BlockAt, WellFormed, AnalyzeReachability, Explore, LimitReached, GraphOf, Within;
    var s, levels := FinalSearch(m, entry, o);
    GraphLimit(m, o, entry, s);
    WithinIsQueued(m, o, entry, s, levels, pc, k);
    var j :| 0 <= j < |s.queue| && s.queue[j].pc == pc && levels[j] <= k;
    BlockOfVisited(m, o, entry, s, j);
  }

  /** Following direct calls only adds blocks: when that run is not truncated, it
      has every block of the run that does not follow them, whatever the limit of
      the latter. */
  lemma FollowingCallsOnlyAdds(m: MapValue, entry: U32, o: ReachabilityOptions, o': ReachabilityOptions, k: nat)
    requires WellFormed(m) && FollowsMore(o, o')
    requires AnalyzeReachability(m, entry, o).ReachOk? && AnalyzeReachability(m, entry, o').ReachOk?
    requires !LimitReached(AnalyzeReachability(m, entry, o').graph.issues)
    requires k < |AnalyzeReachability(m, entry, o).graph.blocks|
    ensures AnalyzeReachability(m, entry, o).graph.blocks[k] in AnalyzeReachability(m, entry, o').graph.blocks
  {
    hide AnalyzeBlock, WellFormed, AnalyzeReachability, LimitReached, Within;
    ReachabilityIsSound(m, entry, o, k);
    var pc := AnalyzeReachability(m, entry, o).graph.blocks[k].startPc;
    var d: nat :| IsDistance(m, o, entry, pc, d);
    WithinFollowsMore(m, o, o', entry, pc, d);
    UntruncatedIsComplete(m, entry, o', pc, d);
  }

  // ---------------------------------------------------------------- overlap issues

  predicate Overlapping(blocks: seq<BasicBlock>, leader: U32, container: U32, kind: IssueKind) {
    leader != container && IsBlock(blocks, leader) &&
    exists b :: b in blocks && b.startPc == container &&
                if kind == LeaderInsideBlock then HasInstructionAt(b, leader) else LeaderIsDelaySlot(leader, b)
  }

  /** Finding the first occurrence behind the first instruction is finding any. */
  lemma InsideIffPresent(b: BasicBlock, leader: U32)
    requires |b.instructions| > 0 && b.instructions[0].pc != leader
    ensures LeaderIsInside(leader, b) <==> HasInstructionAt(b, leader)
  {
    if HasInstructionAt(b, leader) {
      var k: nat :| k < |b.instructions| && b.instructions[k].pc == leader;
      var first := FirstAt(b, leader, k);
    }
  }

  lemma FirstAt(b: BasicBlock, leader: U32, k: nat) returns (first: nat)
    requires k < |b.instructions| && b.instructions[k].pc == leader
    ensures first <= k && b.instructions[first].pc == leader
    ensures forall i :: 0 <= i < first ==> b.instructions[i].pc != leader
  {
    first := k;
    if i: nat :| i < k && b.instructions[i].pc == leader {
      first := FirstAt(b, leader, i);
    }
  }

  predicate NoDuplicates(xs: seq<Issue>) {
    forall i, j :: 0 <= i < j < |xs| ==> xs[i] != xs[j]
  }

  lemma NoDuplicatesAppend(xs: seq<Issue>, ys: seq<Issue>)
    requires NoDuplicates(xs) && NoDuplicates(ys) && forall x | x in xs :: x !in ys
    ensures NoDuplicates(xs + ys)
  {
    var zs := xs + ys;
    forall i, j | 0 <= i < j < |zs|
      ensures zs[i] != zs[j]
    {
      if i < |xs| <= j {
        assert xs[i] in xs && ys[j - |xs|] in ys;
      }
    }
  }

  lemma {:induction false} LeaderIssuesOnce(leader: U32, blocks: seq<BasicBlock>)
    requires DistinctStarts(blocks)
    ensures NoDuplicates(LeaderIssues(leader, blocks))
    decreases |blocks|
  {
    hide LeaderIsInside, LeaderIsDelaySlot;
    if |blocks| > 0 {
      var front, b := blocks[..|blocks| - 1], blocks[|blocks| - 1];
      LeaderIssuesOnce(leader, front);
      forall x | x in LeaderIssues(leader, front)
        ensures x !in PairIssues(leader, b)
      {
        LeaderIssueOrigin(leader, front, x);
      }
      NoDuplicatesAppend(LeaderIssues(leader, front), PairIssues(leader, b));
    }
  }

  lemma {:induction false} OverlapIssuesOnce(leaders: seq<BasicBlock>, blocks: seq<BasicBlock>)
    requires DistinctStarts(leaders) && DistinctStarts(blocks)
    ensures NoDuplicates(OverlapIssues(leaders, blocks))
    decreases |leaders|
  {
    hide PairIssues, LeaderIssues;
    if |leaders| > 0 {
      var front, l := leaders[..|leaders| - 1], leaders[|leaders| - 1];
      OverlapIssuesOnce(front, blocks);
      LeaderIssuesOnce(l.startPc, blocks);
      forall x | x in OverlapIssues(front, blocks)
        ensures x !in LeaderIssues(l.startPc, blocks)
      {
        OverlapOrigin(front, blocks, x);
        LeaderIssueOrigin(l.startPc, blocks, x);
        PairLeader(blocks, x);
      }
      NoDuplicatesAppend(OverlapIssues(front, blocks), LeaderIssues(l.startPc, blocks));
    }
  }

  lemma PairLeader(blocks: seq<BasicBlock>, x: Issue)
    ensures forall leader: U32, b :: x in PairIssues(leader, b) ==> x.sourceBlock == leader
  {
  }

  /** The overlap issues are exact: one for every pair of a block start and another
      block that has it as a further instruction or as its delay slot, each
      reported once and in that form. */
  lemma OverlapsAreExact(m: MapValue, entry: U32, o: ReachabilityOptions, leader: U32, container: U32)
    requires WellFormed(m) && AnalyzeReachability(m, entry, o).ReachOk?
    ensures var g := AnalyzeReachability(m, entry, o).graph;
            && (InsideBlock(leader, container) in g.issues <==>
                Overlapping(g.blocks, leader, container, LeaderInsideBlock))
            && (InsideDelaySlot(leader, container) in g.issues <==>
                  Overlapping(g.blocks, leader, container, LeaderInsideDelaySlot))
            && (forall i, j :: 0 <= i < j < |g.issues| && OverlapKind(g.issues[i].kind) ==> g.issues[i] != g.issues[j])
            && forall x | x in g.issues && OverlapKind(x.kind) ::
                 exists l: U32, c: U32 :: x == InsideBlock(l, c) || x == InsideDelaySlot(l, c)
  {
    hide SearchInv, BlockAt, WellFormed, AnalyzeReachability, Explore, GraphOf, OverlapIssues, Overlapping,
      DistinctStarts;
    var s, levels := FinalSearch(m, entry, o);
    var g := GraphOf(m, o, entry, s);
    ReachabilityIsSound(m, entry, o, 0);
    GraphIssue(m, o, entry, s, InsideBlock(leader, container));
    GraphIssue(m, o, entry, s, InsideDelaySlot(leader, container));
    forall b | b in g.blocks
      ensures |b.instructions| > 0 && b.instructions[0].pc == b.startPc
    {
      var k :| 0 <= k < |g.blocks| && g.blocks[k] == b;
      ReachabilityIsSound(m, entry, o, k);
      BlockStartsAt(m, o, b.startPc);
    }
    OverlapMember(g.blocks, leader, container);
    OverlapIssuesOnce(g.blocks, g.blocks);
    GraphBlocks(m, o, entry, s);
    OverlapsAtTheEnd(m, o, entry, s);
    forall x | x in g.issues && OverlapKind(x.kind)
      ensures exists l: U32, c: U32 :: x == InsideBlock(l, c) || x == InsideDelaySlot(l, c)
    {
      GraphIssue(m, o, entry, s, x);
      OverlapShape(g.blocks, x);
    }
  }

  lemma OverlapShape(blocks: seq<BasicBlock>, x: Issue)
    requires x in OverlapIssues(blocks, blocks)
    ensures exists l: U32, c: U32 :: x == InsideBlock(l, c) || x == InsideDelaySlot(l, c)
  {
    hide OverlapIssues, LeaderIsInside, LeaderIsDelaySlot;
    OverlapOrigin(blocks, blocks, x);
    var l, b :| l in blocks && b in blocks && x in PairIssues(l.startPc, b);
    assert x == InsideBlock(l.startPc, b.startPc) || x == InsideDelaySlot(l.startPc, b.startPc);
  }

  lemma GraphBlocks(m: MapValue, o: ReachabilityOptions, entry: U32, s: Search)
    requires WellFormed(m) && s.head <= |s.queue|
    ensures GraphOf(m, o, entry, s).blocks == BlocksOf(m, o, s.queue[..s.head])
  {
    hide BlockAt, WellFormed, OverlapIssues, IssuesOf, BlocksOf, CallsOf;
  }

  lemma OverlapMember(blocks: seq<BasicBlock>, leader: U32, container: U32)
    requires forall b | b in blocks :: |b.instructions| > 0 && b.instructions[0].pc == b.startPc
    ensures InsideBlock(leader, container) in OverlapIssues(blocks, blocks) <==>
            Overlapping(blocks, leader, container, LeaderInsideBlock)
    ensures InsideDelaySlot(leader, container) in OverlapIssues(blocks, blocks) <==>
            Overlapping(blocks, leader, container, LeaderInsideDelaySlot)
  {
    hide OverlapIssues, LeaderIsInside, HasInstructionAt, LeaderIsDelaySlot;
    OverlapOrigin(blocks, blocks, InsideBlock(leader, container));
    OverlapOrigin(blocks, blocks, InsideDelaySlot(leader, container));
    forall b | b in blocks && b.startPc != leader
      ensures LeaderIsInside(leader, b) <==> HasInstructionAt(b, leader)
    {
      InsideIffPresent(b, leader);
    }
  }

  lemma OverlapsAtTheEnd(m: MapValue, o: ReachabilityOptions, entry: U32, s: Search)
    requires WellFormed(m) && s.head <= |s.queue|
    requires var blocks := BlocksOf(m, o, s.queue[..s.head]); NoDuplicates(OverlapIssues(blocks, blocks))
    ensures var issues := GraphOf(m, o, entry, s).issues;
            forall i, j :: 0 <= i < j < |issues| && OverlapKind(issues[i].kind) ==> issues[i] != issues[j]
  {
    hide BlockAt, WellFormed, OverlapIssues, IssuesOf, VisitIssues, BlocksOf, CallsOf;
    var found := IssuesOf(m, o, s.queue[..s.head]);
    forall x | x in found
      ensures !OverlapKind(x.kind)
    {
      var i := IssueOrigin(m, o, s.queue[..s.head], x);
      VisitIssueKinds(m, o, s.queue[i], x);
    }
  }

  // ---------------------------------------------------------------- calls and unresolved exits

  /** The call an edge of a block stands for. */
  predicate IsCallOf(b: BasicBlock, e: Edge, c: Call) {
    && c.sourceBlock == b.startPc && |b.instructions| > 0 && c.callPc == b.instructions[|b.instructions| - 1].pc
    && if c.indirect then e.kind == IndirectCallEdge && c.target == None
       else e.kind == DirectCallEdge && c.target == e.target
  }

  lemma {:induction false} EdgeCallsMember(b: BasicBlock, edges: seq<Edge>, c: Call)
    requires |b.instructions| > 0
    ensures c in EdgeCalls(b.startPc, TerminatorPc(b), edges) <==> exists e :: e in edges && IsCallOf(b, e, c)
    decreases |edges|
  {
    if |edges| > 0 {
      EdgeCallsMember(b, edges[1..], c);
      assert c in EdgeCall(b.startPc, TerminatorPc(b), edges[0]) <==> IsCallOf(b, edges[0], c);
    }
  }

  lemma {:induction false} CallsOfMember(blocks: seq<BasicBlock>, c: Call)
    requires forall b | b in blocks :: |b.instructions| > 0
    ensures c in CallsOf(blocks) <==> exists b, e :: b in blocks && e in b.ending.edges && IsCallOf(b, e, c)
    decreases |blocks|
  {
    hide EdgeCalls, IsCallOf, TerminatorPc;
    if |blocks| > 0 {
      var b := blocks[|blocks| - 1];
      CallsOfMember(blocks[..|blocks| - 1], c);
      EdgeCallsMember(b, b.ending.edges, c);
    }
  }

  lemma BlocksNonEmpty(m: MapValue, entry: U32, o: ReachabilityOptions)
    requires WellFormed(m) && AnalyzeReachability(m, entry, o).ReachOk?
    ensures forall b | b in AnalyzeReachability(m, entry, o).graph.blocks ::
              |b.instructions| > 0 && BlockAt(m, o, b.startPc) == BlockOk(b)
  {
    hide BlockAt, WellFormed, AnalyzeReachability, IsDistance, DistinctStarts;
    var blocks := AnalyzeReachability(m, entry, o).graph.blocks;
    forall b | b in blocks
      ensures |b.instructions| > 0 && BlockAt(m, o, b.startPc) == BlockOk(b)
    {
      var k :| 0 <= k < |blocks| && blocks[k] == b;
      ReachabilityIsSound(m, entry, o, k);
      BlockStartsAt(m, o, b.startPc);
    }
  }

  /** The recorded calls are exactly the direct and indirect call edges of the
      included blocks, at the PC of the block's last instruction, whether or not
      direct calls are followed. */
  lemma CallsAreExact(m: MapValue, entry: U32, o: ReachabilityOptions, c: Call)
    requires WellFormed(m) && AnalyzeReachability(m, entry, o).ReachOk?
    ensures var g := AnalyzeReachability(m, entry, o).graph;
            c in g.calls <==> exists b, e :: b in g.blocks && e in b.ending.edges && IsCallOf(b, e, c)
  {
    hide BlockAt, WellFormed, Explore, IsCallOf, OverlapIssues, CallsOf, BlocksOf, IssuesOf;
    BlocksNonEmpty(m, entry, o);
    CallsOfMember(AnalyzeReachability(m, entry, o).graph.blocks, c);
  }

  predicate HasIndirectExit(b: BasicBlock) {
    exists e :: e in b.ending.edges && e.kind in {IndirectJumpEdge, IndirectCallEdge}
  }

  lemma {:induction false} IndirectExitsMember(source: U32, edges: seq<Edge>)
    ensures Issue(UnresolvedIndirectExit, source, None, None, None) in IndirectExits(source, edges) <==>
            exists e :: e in edges && e.kind in {IndirectJumpEdge, IndirectCallEdge}
    ensures forall x :: x in IndirectExits(source, edges) ==>
            x == Issue(UnresolvedIndirectExit, source, None, None, None)
    decreases |edges|
  {
    if |edges| > 0 {
      IndirectExitsMember(source, edges[1..]);
    }
  }

  /** An unresolved exit is reported for exactly the included blocks that end in an
      indirect jump or call. */
  lemma IndirectExitsAreExact(m: MapValue, entry: U32, o: ReachabilityOptions, x: Issue)
    requires WellFormed(m) && AnalyzeReachability(m, entry, o).ReachOk? && x.kind == UnresolvedIndirectExit
    ensures var g := AnalyzeReachability(m, entry, o).graph;
            x in g.issues <==>
            x == Issue(UnresolvedIndirectExit, x.sourceBlock, None, None, None) &&
            exists b :: b in g.blocks && b.startPc == x.sourceBlock && HasIndirectExit(b)
  {
    hide SearchInv, BlockAt, WellFormed, AnalyzeReachability, Explore, GraphOf, HasIndirectExit, IssuesOf, VisitIssues;
    var s, levels := FinalSearch(m, entry, o);
    var g := GraphOf(m, o, entry, s);
    UnresolvedIssue(m, o, entry, s, x);
    if x in IssuesOf(m, o, s.queue[..s.head]) {
      var i := IssueOrigin(m, o, s.queue[..s.head], x);
      VisitUnresolved(m, o, s.queue[i], x);
      BlockOfVisited(m, o, entry, s, i);
    }
    if b :| b in g.blocks && b.startPc == x.sourceBlock && HasIndirectExit(b) {
      var k :| 0 <= k < |g.blocks| && g.blocks[k] == b;
      InvBounds(m, o, entry, s, levels);
      var i := BlockInQueue(m, entry, o, s, levels, k);
      VisitUnresolved(m, o, s.queue[i], x);
      if x == Issue(UnresolvedIndirectExit, x.sourceBlock, None, None, None) {
        VisitedIssue(m, o, s.queue[..s.head], i, x);
      }
    }
  }

  lemma UnresolvedIssue(m: MapValue, o: ReachabilityOptions, entry: U32, s: Search, x: Issue)
    requires WellFormed(m) && s.head <= |s.queue| && x.kind == UnresolvedIndirectExit
    ensures x in GraphOf(m, o, entry, s).issues <==> x in IssuesOf(m, o, s.queue[..s.head])
  {
    hide BlockAt, WellFormed, OverlapIssues, IssuesOf, BlocksOf, CallsOf;
    var blocks := BlocksOf(m, o, s.queue[..s.head]);
    if x in OverlapIssues(blocks, blocks) {
      OverlapKinds(blocks, blocks, x);
    }
  }

  /** What a visit reports as unresolved. */
  lemma VisitUnresolved(m: MapValue, o: ReachabilityOptions, pending: PendingTarget, x: Issue)
    requires WellFormed(m) && x.kind == UnresolvedIndirectExit
    ensures var r := BlockAt(m, o, pending.pc);
            x in VisitIssues(m, o, pending) <==>
            r.BlockOk? && r.block.startPc == x.sourceBlock && HasIndirectExit(r.block) &&
            x == Issue(UnresolvedIndirectExit, x.sourceBlock, None, None, None)
  {
    hide BlockAt, WellFormed, IndirectExits;
    var r := BlockAt(m, o, pending.pc);
    if r.BlockOk? {
      IndirectExitsMember(r.block.startPc, r.block.ending.edges);
    }
  }
}
