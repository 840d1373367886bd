/** Proving that one physical branch interval terminates locally. */
module TerminalIntervals {
  import opened Options
  import opened Graphs
  import opened Sets
  import opened Opcodes
  import opened ControlFlowGraphs

  /** The blocks that start inside a range of offsets. */
  function BlocksWithin(cfg: ControlFlowGraph, lower: int, upper: int): (s: set<int>)
    ensures forall k :: k in s <==> 0 <= k < |cfg.blocks| && lower <= cfg.blocks[k].start < upper
  {
    set k | 0 <= k < |cfg.blocks| && lower <= cfg.blocks[k].start < upper
  }

  /** The offset just after a token range. */
  function RegionEndOffset(tokens: seq<Instruction>, end: nat): int {
    if end < |tokens| then tokens[end].offset
    else if tokens == [] then 0
    else tokens[|tokens| - 1].offset + 2
  }

  /** Every edge that leaves a visited block for the outside is an exception edge. */
  ghost predicate Contained(cfg: ControlFlowGraph, interval: set<int>, visited: set<int>, pending: seq<int>) {
    && visited <= interval
    && forall e :: e in cfg.edges && e.source in visited ==>
         if e.target in interval then e.target in visited || e.target in pending else e.kind.Exception?
  }

  /** The part of the graph inside the interval. */
  ghost function Inside(cfg: ControlFlowGraph, interval: set<int>): Arcs {
    Graph(interval, cfg.edges, 0).Out()
  }

  /** Queue the targets of one block that stay inside; a normal edge out of the interval disproves termination. */
  method QueueTargets(cfg: ControlFlowGraph, interval: set<int>, k: int, pending: seq<int>)
    returns (ok: bool, pending': seq<int>)
    ensures ok <==> forall e :: e in cfg.edges && e.source == k && e.target !in interval ==> e.kind.Exception?
    ensures ok ==> pending' == pending + TargetsWithin(EdgesFrom(cfg.edges, k), interval)
  {
    hide TargetsWithin, EdgesFrom;
    var outgoing := EdgesFrom(cfg.edges, k);
    ok, pending' := true, pending;
    TargetsWithinNone(interval);
    assert outgoing[..0] == [];
    for i := 0 to |outgoing|
      invariant forall j :: 0 <= j < i && outgoing[j].target !in interval ==> outgoing[j].kind.Exception?
      invariant pending' == pending + TargetsWithin(outgoing[..i], interval)
    {
      var edge := outgoing[i];
      TargetsWithinNext(outgoing, i, interval);
      assert edge in outgoing;
      if edge.target !in interval {
        if edge.kind.Exception? {
          continue;
        }
        return false, pending';
      }
      pending' := pending' + [edge.target];
    }
    assert outgoing[..|outgoing|] == outgoing;
    OutgoingStays(cfg, interval, k);
  }

  lemma OutgoingStays(cfg: ControlFlowGraph, interval: set<int>, k: int)
    requires var outgoing := EdgesFrom(cfg.edges, k);
             forall j :: 0 <= j < |outgoing| && outgoing[j].target !in interval ==> outgoing[j].kind.Exception?
    ensures forall e :: e in cfg.edges && e.source == k && e.target !in interval ==> e.kind.Exception?
  {
    forall e | e in cfg.edges && e.source == k && e.target !in interval ensures e.kind.Exception? {
      assert e in EdgesFrom(cfg.edges, k);
    }
  }

  function WorkLimit(interval: set<int>): nat {
    if |interval| * 4 > 32 then |interval| * 4 else 32
  }

  /** The pops that a complete walk of the interval needs: its first block, and one for each edge inside. */
  function Work(cfg: ControlFlowGraph, interval: set<int>): nat {
    1 + Count(cfg.edges, interval, interval)
  }

  /** The walk accounts for its pops: everything queued is popped once. */
  ghost predicate Walking(cfg: ControlFlowGraph, startBlock: int, interval: set<int>, visited: set<int>,
                          pending: seq<int>, workCount: int) {
    && Contained(cfg, interval, visited, pending)
    && (startBlock in visited || startBlock in pending)
    && (forall k :: k in visited || k in pending ==> k in interval && Reaches(Inside(cfg, interval), startBlock, k))
    && workCount + |pending| == 1 + Count(cfg.edges, visited, interval)
  }

  lemma VisitKeeps(cfg: ControlFlowGraph, startBlock: int, interval: set<int>, visited: set<int>,
                   rest: seq<int>, k: int, workCount: int)
    requires Walking(cfg, startBlock, interval, visited, rest + [k], workCount) && k !in visited
    requires forall e :: e in cfg.edges && e.source == k && e.target !in interval ==> e.kind.Exception?
    ensures Walking(cfg, startBlock, interval, visited + {k},
                    rest + TargetsWithin(EdgesFrom(cfg.edges, k), interval), workCount + 1)
  {
    hide Reaches, Inside, TargetsWithin, EdgesFrom;
    var more := rest + TargetsWithin(EdgesFrom(cfg.edges, k), interval);
    assert k in rest + [k];
    TargetsCounted(EdgesFrom(cfg.edges, k), k, interval);
    CountFrom(cfg.edges, k, interval);
    CountMore(cfg.edges, visited, k, interval);
    forall m | m in more ensures m in interval && Reaches(Inside(cfg, interval), startBlock, m) {
      if m in rest {
        assert m in rest + [k];
      } else {
        StepInside(cfg, interval, startBlock, k, m);
      }
    }
    forall e | e in cfg.edges && e.source in visited + {k} && e.target in interval
      ensures e.target in visited + {k} || e.target in more
    {
      if e.source in visited && e.target !in visited + {k} {
        assert e.target in rest + [k];
      } else if e.source == k {
        assert e in EdgesFrom(cfg.edges, k);
      }
    }
  }

  lemma StepInside(cfg: ControlFlowGraph, interval: set<int>, startBlock: int, k: int, m: int)
    requires k in interval && m in interval && Reaches(Inside(cfg, interval), startBlock, k)
    requires exists e :: e in cfg.edges && e.source == k && e.target == m
    ensures Reaches(Inside(cfg, interval), startBlock, m)
  {
    assert m in Graph(interval, cfg.edges, 0).Successors(k);
    ConnectsStep(Inside(cfg, interval), k, m, {});
    ConnectsTrans(Inside(cfg, interval), startBlock, k, m, {});
  }

  lemma SkipKeeps(cfg: ControlFlowGraph, startBlock: int, interval: set<int>, visited: set<int>,
                  rest: seq<int>, k: int, workCount: int)
    requires Walking(cfg, startBlock, interval, visited, rest + [k], workCount) && k in visited
    ensures Walking(cfg, startBlock, interval, visited, rest, workCount + 1)
  {
    hide Reaches, Inside;
    forall m | m in rest ensures m in rest + [k] {
    }
    forall e | e in cfg.edges && e.source in visited && e.target in interval
      ensures e.target in visited || e.target in rest
    {
      if e.target !in visited {
        assert e.target in rest + [k];
      }
    }
  }

  /**
   Walk the interval from its first block. The result is what that block reaches inside; nothing
   when a normal edge leaves the interval from there, or when the work limit is hit.
   */
  method WalkInterval(cfg: ControlFlowGraph, startBlock: int, interval: set<int>) returns (r: Option<set<int>>)
    requires startBlock in interval
    ensures r.Some? ==> Contained(cfg, interval, r.value, [])
    ensures r.Some? ==> forall k :: k in r.value <==> Reaches(Inside(cfg, interval), startBlock, k)
    ensures r == Some(interval) ==> Work(cfg, interval) <= WorkLimit(interval)
    ensures r.None? ==> Work(cfg, interval) > WorkLimit(interval) || !Contained(cfg, interval, interval, [])
  {
    hide Contained, Walking, Inside;
    var pending := [startBlock];
    var visited: set<int> := {};
    var workLimit := WorkLimit(interval);
    var workCount := 0;
    WalkBegins(cfg, startBlock, interval);
    while pending != []
      invariant Walking(cfg, startBlock, interval, visited, pending, workCount) && workCount <= workLimit
      decreases workLimit - workCount
    {
      WorkSpent(cfg, startBlock, interval, visited, pending, workCount);
      workCount := workCount + 1;
      if workCount > workLimit {
        return None;
      }
      var k := pending[|pending| - 1];
      var rest := pending[..|pending| - 1];
      assert pending == rest + [k];
      pending := rest;
      if k in visited {
        SkipKeeps(cfg, startBlock, interval, visited, rest, k, workCount - 1);
        continue;
      }
      if k !in interval {
        return None;
      }
      var ok, more := QueueTargets(cfg, interval, k, rest);
      if !ok {
        NotContained(cfg, interval, k);
        return None;
      }
      VisitKeeps(cfg, startBlock, interval, visited, rest, k, workCount - 1);
      visited := visited + {k};
      pending := more;
    }
    WalkEnds(cfg, startBlock, interval, visited, workCount);
    r := Some(visited);
  }

  lemma WalkBegins(cfg: ControlFlowGraph, startBlock: int, interval: set<int>)
    requires startBlock in interval
    ensures Walking(cfg, startBlock, interval, {}, [startBlock], 0)
  {
    ConnectsSelf(Inside(cfg, interval), startBlock, {});
    CountNone(cfg.edges, interval);
  }

  lemma WorkSpent(cfg: ControlFlowGraph, startBlock: int, interval: set<int>, visited: set<int>, pending: seq<int>,
                  workCount: int)
    requires Walking(cfg, startBlock, interval, visited, pending, workCount)
    ensures workCount + |pending| <= Work(cfg, interval)
    ensures forall k :: k in pending ==> k in interval
  {
    hide Reaches, Inside;
    CountMonotone(cfg.edges, visited, interval, interval);
  }

  lemma NotContained(cfg: ControlFlowGraph, interval: set<int>, k: int)
    requires k in interval
    requires !(forall e :: e in cfg.edges && e.source == k && e.target !in interval ==> e.kind.Exception?)
    ensures !Contained(cfg, interval, interval, [])
  {
  }

  lemma WalkEnds(cfg: ControlFlowGraph, startBlock: int, interval: set<int>, visited: set<int>, workCount: int)
    requires startBlock in interval && Walking(cfg, startBlock, interval, visited, [], workCount)
    ensures Contained(cfg, interval, visited, [])
    ensures forall k :: k in visited <==> Reaches(Inside(cfg, interval), startBlock, k)
    ensures workCount == 1 + Count(cfg.edges, visited, interval)
  {
    forall k, m | k in visited && Step(Inside(cfg, interval), k, m) ensures m in visited {
      var e :| e in cfg.edges && e.source == k && e.target == m;
    }
    SeenAll(Inside(cfg, interval), visited, startBlock);
  }

  /** The interval is entered only at its first block, on normal edges from condition blocks. */
  predicate SingleEntry(cfg: ControlFlowGraph, interval: set<int>, startBlock: int, conditionBlocks: set<int>) {
    && (exists e :: e in cfg.edges && e.target == startBlock && e.source !in interval)
    && forall e :: e in cfg.edges && e.target in interval && e.source !in interval ==>
         e.target == startBlock && !e.kind.Exception? && e.source in conditionBlocks
  }

  /** No edge of block k stays in the interval. */
  predicate ExitBlock(cfg: ControlFlowGraph, interval: set<int>, k: int) {
    forall e :: e in cfg.edges && e.source == k ==> e.target !in interval
  }

  predicate Final(kind: Kind) {
    kind.ReturnValue? || kind.Reraise?
  }

  /** Exits return or reraise, some exit returns, returns have no normal successor, reraises sit in handlers. */
  predicate ExitsTerminate(cfg: ControlFlowGraph, interval: set<int>)
    requires Numbered(cfg.blocks) && forall k :: k in interval ==> 0 <= k < |cfg.blocks|
  {
    && (forall k :: k in interval && Final(cfg.LastKind(k)) ==> cfg.NormalFrom(k) == [])
    && (exists k :: k in interval && ExitBlock(cfg, interval, k) && cfg.LastKind(k).ReturnValue?)
    && (forall k :: k in interval && ExitBlock(cfg, interval, k) ==> Final(cfg.LastKind(k)))
    && (forall k :: k in interval && ExitBlock(cfg, interval, k) && cfg.LastKind(k).Reraise? ==>
          exists e :: e in cfg.edges && e.target == k && e.kind.Exception?)
  }

  /** Everything an accepted interval has passed. */
  ghost predicate Accepted(cfg: ControlFlowGraph, interval: set<int>, startBlock: int, conditionBlocks: set<int>)
    requires Numbered(cfg.blocks) && forall k :: k in interval ==> 0 <= k < |cfg.blocks|
  {
    && startBlock in interval
    && Contained(cfg, interval, interval, [])
    && (forall k {:trigger Reaches(Inside(cfg, interval), startBlock, k)} ::
          k in interval ==> Reaches(Inside(cfg, interval), startBlock, k))
    && SingleEntry(cfg, interval, startBlock, conditionBlocks)
    && ExitsTerminate(cfg, interval)
  }

  lemma NotAllReached(cfg: ControlFlowGraph, startBlock: int, interval: set<int>, visited: set<int>)
    requires Contained(cfg, interval, visited, []) && visited != interval
    requires forall k :: k in visited <==> Reaches(Inside(cfg, interval), startBlock, k)
    ensures !(forall k :: k in interval ==> Reaches(Inside(cfg, interval), startBlock, k))
  {
    hide Reaches, Inside;
    if forall k :: k in interval ==> Reaches(Inside(cfg, interval), startBlock, k) {
      forall k ensures k in visited <==> k in interval {
      }
      Extensional(visited, interval);
    }
  }

  /** The interval is accepted exactly when it passes every check and its walk fits the work limit. */
  method TerminalIntervalExitKinds(tokens: seq<Instruction>, cfg: ControlFlowGraph, start: int, end: int,
                                   conditionBlocks: set<int>) returns (r: Option<set<Kind>>)
    requires cfg.WellFormed()
    ensures r.Some? <==>
              && 0 <= start < end <= |tokens|
              && tokens[start].offset in cfg.offsetToBlock
              && var interval := BlocksWithin(cfg, tokens[start].offset, RegionEndOffset(tokens, end));
                 && Accepted(cfg, interval, cfg.offsetToBlock[tokens[start].offset], conditionBlocks)
                 && Work(cfg, interval) <= WorkLimit(interval)
    ensures r.Some? ==>
              var interval := BlocksWithin(cfg, tokens[start].offset, RegionEndOffset(tokens, end));
              r.value == (set k | k in interval && ExitBlock(cfg, interval, k) :: cfg.LastKind(k))
  {
    if !(0 <= start < end <= |tokens|) {
      return None;
    }
    var lower := tokens[start].offset;
    var upper := RegionEndOffset(tokens, end);
    if lower !in cfg.offsetToBlock {
      return None;
    }
    var startBlock := cfg.offsetToBlock[lower];
    var interval := BlocksWithin(cfg, lower, upper);
    if startBlock !in interval {
      return None;
    }
    var visited := WalkInterval(cfg, startBlock, interval);
    if visited == None {
      return None;
    }
    if visited.value != interval {
      NotAllReached(cfg, startBlock, interval, visited.value);
      return None;
    }
    if !SingleEntry(cfg, interval, startBlock, conditionBlocks) {
      return None;
    }
    if !ExitsTerminate(cfg, interval) {
      return None;
    }
    r := Some(set k | k in interval && ExitBlock(cfg, interval, k) :: cfg.LastKind(k));
  }

  // ---------- what acceptance means for runs ----------

  /** An edge that enters the interval as it must: to its first block, on a normal edge from a condition block. */
  predicate Enters(interval: set<int>, startBlock: int, conditionBlocks: set<int>, e: Edge) {
    e.source !in interval && e.target == startBlock && !e.kind.Exception? && e.source in conditionBlocks
  }

  /** An edge that leaves the interval as it may: on an exception. */
  predicate Escapes(interval: set<int>, e: Edge) {
    e.source in interval && e.target !in interval && e.kind.Exception?
  }

  /** The blocks a run arrives at from step i up to step m lie in the interval. */
  ghost predicate Stays(interval: set<int>, p: seq<Edge>, i: nat, m: nat)
    requires m <= |p|
  {
    forall k :: i <= k < m ==> p[k].target in interval
  }

  /** Whenever a run from outside is in the interval, it entered at the first block and has stayed since. */
  lemma EntersAtStart(cfg: ControlFlowGraph, interval: set<int>, startBlock: int, conditionBlocks: set<int>,
                      p: seq<Edge>, i: nat) returns (j: nat)
    requires SingleEntry(cfg, interval, startBlock, conditionBlocks)
    requires Follows(cfg, p) && i < |p| && p[0].source !in interval && p[i].target in interval
    ensures j <= i && Enters(interval, startBlock, conditionBlocks, p[j]) && Stays(interval, p, j, i + 1)
  {
    j := i;
    while p[j].source in interval
      invariant j <= i && p[j].target in interval && Stays(interval, p, j, i + 1)
      decreases j
    {
      assert p[j - 1].target == p[j].source;
      j := j - 1;
    }
    assert p[j] in cfg.edges;
  }

  /** From any point in the interval a run stays in it to its end, or until an exception takes it out. */
  lemma LeavesOnlyExceptionally(cfg: ControlFlowGraph, interval: set<int>, startBlock: int, conditionBlocks: set<int>,
                                p: seq<Edge>, i: nat) returns (m: nat)
    requires Numbered(cfg.blocks) && forall b :: b in interval ==> 0 <= b < |cfg.blocks|
    requires Accepted(cfg, interval, startBlock, conditionBlocks)
    requires Follows(cfg, p) && i < |p| && p[i].source in interval
    ensures i <= m <= |p| && Stays(interval, p, i, m)
    ensures m < |p| ==> Escapes(interval, p[m])
  {
    hide Reaches, Inside, ExitsTerminate, SingleEntry;
    m := i;
    while m < |p| && p[m].target in interval
      invariant i <= m <= |p| && Stays(interval, p, i, m)
      invariant m < |p| ==> p[m].source in interval
    {
      if m + 1 < |p| {
        assert p[m].target == p[m + 1].source;
      }
      m := m + 1;
    }
    if m < |p| {
      assert p[m] in cfg.edges;
    }
  }

  /**
   A run that arrives in the interval and cannot continue inside it has arrived at a block that
   returns or reraises, and any step it can still take is an exception out of the interval.
   */
  lemma StopsAtExit(cfg: ControlFlowGraph, interval: set<int>, startBlock: int, conditionBlocks: set<int>, p: seq<Edge>)
    requires Numbered(cfg.blocks) && forall b :: b in interval ==> 0 <= b < |cfg.blocks|
    requires Accepted(cfg, interval, startBlock, conditionBlocks)
    requires Follows(cfg, p) && p != [] && p[|p| - 1].target in interval
    requires forall e :: Follows(cfg, p + [e]) ==> e.target !in interval
    ensures Final(cfg.LastKind(p[|p| - 1].target))
    ensures forall e :: Follows(cfg, p + [e]) ==> Escapes(interval, e)
  {
    hide Reaches, Inside;
    var k := p[|p| - 1].target;
    forall e | e in cfg.edges && e.source == k ensures e.target !in interval {
      RunContinues(cfg, p, e);
    }
    assert ExitBlock(cfg, interval, k);
    forall e | Follows(cfg, p + [e]) ensures Escapes(interval, e) {
      RunContinues(cfg, p, e);
    }
  }

  /** A run goes on with exactly the edges that leave the block it has arrived at. */
  lemma RunContinues(cfg: ControlFlowGraph, p: seq<Edge>, e: Edge)
    requires Follows(cfg, p) && p != []
    ensures Follows(cfg, p + [e]) <==> e in cfg.edges && e.source == p[|p| - 1].target
  {
    var q := p + [e];
    if Follows(cfg, q) {
      assert q[|p| - 1].target == q[|p|].source && q[|p|] in cfg.edges;
    }
  }

  // ---------- acceptance in terms of edges and last instructions ----------

  /** Edges from k lead out of the interval, if anywhere. */
  ghost predicate OnlyLeaves(cfg: ControlFlowGraph, interval: set<int>, k: int) {
    forall e :: e in cfg.edges && e.source == k ==> e.target !in interval
  }

  /** p is a run that starts at block u and visits only blocks of the interval. */
  ghost predicate RunsInside(cfg: ControlFlowGraph, interval: set<int>, u: int, p: seq<Edge>) {
    && Follows(cfg, p)
    && (p != [] ==> p[0].source == u)
    && forall i :: 0 <= i < |p| ==> p[i].source in interval && p[i].target in interval
  }

  ghost predicate ReachedInside(cfg: ControlFlowGraph, interval: set<int>, u: int, k: int) {
    u == k || exists p: seq<Edge> :: RunsInside(cfg, interval, u, p) && p != [] && p[|p| - 1].target == k
  }

  /** Reaching inside the interval is running inside it. */
  lemma InsideMeansRuns(cfg: ControlFlowGraph, interval: set<int>, u: int, k: int)
    ensures Reaches(Inside(cfg, interval), u, k) <==> ReachedInside(cfg, interval, u, k)
  {
    if Reaches(Inside(cfg, interval), u, k) {
      var q :| Walk(Inside(cfg, interval), q, u, k, {});
      WalkIsRun(cfg, interval, q, u, k);
    }
    if u == k {
      ConnectsSelf(Inside(cfg, interval), u, {});
    } else if p: seq<Edge> :| RunsInside(cfg, interval, u, p) && p != [] && p[|p| - 1].target == k {
      RunIsWalk(cfg, interval, u, p);
    }
  }

  lemma InsideStep(cfg: ControlFlowGraph, interval: set<int>, u: int, v: int)
    ensures Step(Inside(cfg, interval), u, v) <==>
              u in interval && v in interval && exists e :: e in cfg.edges && e.source == u && e.target == v
  {
  }

  lemma {:induction false} WalkIsRun(cfg: ControlFlowGraph, interval: set<int>, q: seq<int>, u: int, k: int)
    requires Walk(Inside(cfg, interval), q, u, k, {})
    ensures ReachedInside(cfg, interval, u, k)
  {
    hide Inside;
    if |q| > 1 {
      var m := q[|q| - 2];
      assert q[..|q| - 2 + 1] == q[..|q| - 1];
      WalkPrefix(Inside(cfg, interval), q, u, k, {}, |q| - 2);
      WalkIsRun(cfg, interval, q[..|q| - 1], u, m);
      assert Step(Inside(cfg, interval), q[|q| - 2], q[|q| - 2 + 1]);
      InsideStep(cfg, interval, m, k);
      var e :| e in cfg.edges && e.source == m && e.target == k;
      if u == m {
        assert RunsInside(cfg, interval, u, [e]) && [e] != [];
      } else {
        var p: seq<Edge> :| RunsInside(cfg, interval, u, p) && p != [] && p[|p| - 1].target == m;
        RunContinues(cfg, p, e);
        var r := p + [e];
        assert RunsInside(cfg, interval, u, r) && r != [] && r[|r| - 1].target == k;
      }
    }
  }

  lemma {:induction false} RunIsWalk(cfg: ControlFlowGraph, interval: set<int>, u: int, p: seq<Edge>)
    requires RunsInside(cfg, interval, u, p) && p != []
    ensures Reaches(Inside(cfg, interval), u, p[|p| - 1].target)
    decreases |p|
  {
    hide Inside;
    var e := p[|p| - 1];
    if |p| > 1 {
      var front := p[..|p| - 1];
      assert p[|p| - 2].target == p[|p| - 2 + 1].source;
      RunIsWalk(cfg, interval, u, front);
      assert front[|front| - 1].target == e.source;
    } else {
      ConnectsSelf(Inside(cfg, interval), u, {});
    }
    InsideStep(cfg, interval, e.source, e.target);
    ConnectsStep(Inside(cfg, interval), e.source, e.target, {});
    ConnectsTrans(Inside(cfg, interval), u, e.source, e.target, {});
  }

  /** Edges from k only raise. */
  ghost predicate OnlyRaises(cfg: ControlFlowGraph, k: int) {
    forall e :: e in cfg.edges && e.source == k ==> e.kind == Exception
  }

  ghost predicate Handles(cfg: ControlFlowGraph, k: int) {
    exists e :: e in cfg.edges && e.target == k && e.kind == Exception
  }

  /** Returns and reraises only raise; the blocks from which nothing stays inside return or reraise, one returns. */
  ghost predicate EndsWell(cfg: ControlFlowGraph, interval: set<int>)
    requires Numbered(cfg.blocks) && forall k :: k in interval ==> 0 <= k < |cfg.blocks|
  {
    && (forall k :: k in interval && LastOf(cfg.blocks[k]).kind == ReturnValue ==> OnlyRaises(cfg, k))
    && (forall k :: k in interval && LastOf(cfg.blocks[k]).kind == Reraise ==> OnlyRaises(cfg, k))
    && (forall k :: k in interval && OnlyLeaves(cfg, interval, k) ==>
          || LastOf(cfg.blocks[k]).kind == ReturnValue
          || (LastOf(cfg.blocks[k]).kind == Reraise && Handles(cfg, k)))
    && (exists k :: k in interval && OnlyLeaves(cfg, interval, k) && LastOf(cfg.blocks[k]).kind == ReturnValue)
  }

  /** All blocks are run to from the first one, which is the one way in, from conditions; exceptions lead out. */
  ghost predicate Terminates(cfg: ControlFlowGraph, interval: set<int>, startBlock: int, conditionBlocks: set<int>)
    requires Numbered(cfg.blocks) && forall k :: k in interval ==> 0 <= k < |cfg.blocks|
  {
    && startBlock in interval
    && (forall k :: k in interval ==> ReachedInside(cfg, interval, startBlock, k))
    && (exists e :: e in cfg.edges && e.target == startBlock && e.source !in interval)
    && (forall e :: e in cfg.edges && e.target in interval && e.source !in interval ==>
          e.target == startBlock && e.kind != Exception && e.source in conditionBlocks)
    && (forall e :: e in cfg.edges && e.source in interval && e.target !in interval ==> e.kind == Exception)
    && EndsWell(cfg, interval)
  }

  lemma AcceptedMeans(cfg: ControlFlowGraph, interval: set<int>, startBlock: int, conditionBlocks: set<int>)
    requires Numbered(cfg.blocks) && forall k :: k in interval ==> 0 <= k < |cfg.blocks|
    ensures Accepted(cfg, interval, startBlock, conditionBlocks) <==>
              Terminates(cfg, interval, startBlock, conditionBlocks)
  {
    hide Reaches, Inside, ReachedInside, ExitsTerminate, EndsWell, Contained, SingleEntry;
    forall k ensures Reaches(Inside(cfg, interval), startBlock, k) <==> ReachedInside(cfg, interval, startBlock, k) {
      InsideMeansRuns(cfg, interval, startBlock, k);
    }
    ExitsMean(cfg, interval);
    ContainedMeans(cfg, interval);
    EntryMeans(cfg, interval, startBlock, conditionBlocks);
  }

  lemma ContainedMeans(cfg: ControlFlowGraph, interval: set<int>)
    ensures Contained(cfg, interval, interval, []) <==>
              forall e :: e in cfg.edges && e.source in interval && e.target !in interval ==> e.kind == Exception
  {
    Subset(interval, interval);
  }

  lemma EntryMeans(cfg: ControlFlowGraph, interval: set<int>, startBlock: int, conditionBlocks: set<int>)
    ensures SingleEntry(cfg, interval, startBlock, conditionBlocks) <==>
              && (exists e :: e in cfg.edges && e.target == startBlock && e.source !in interval)
              && (forall e :: e in cfg.edges && e.target in interval && e.source !in interval ==>
                    e.target == startBlock && e.kind != Exception && e.source in conditionBlocks)
  {
  }

  lemma ExitsMean(cfg: ControlFlowGraph, interval: set<int>)
    requires Numbered(cfg.blocks) && forall k :: k in interval ==> 0 <= k < |cfg.blocks|
    ensures ExitsTerminate(cfg, interval) <==> EndsWell(cfg, interval)
  {
    hide EdgesFrom, NormalOnly, ExitBlock, OnlyLeaves, OnlyRaises;
    forall k ensures ExitBlock(cfg, interval, k) <==> OnlyLeaves(cfg, interval, k) {
      LeavesMean(cfg, interval, k);
    }
    forall k ensures cfg.NormalFrom(k) == [] <==> OnlyRaises(cfg, k) {
      NoNormal(cfg, k);
    }
  }

  lemma LeavesMean(cfg: ControlFlowGraph, interval: set<int>, k: int)
    ensures ExitBlock(cfg, interval, k) <==> OnlyLeaves(cfg, interval, k)
  {
  }

  lemma NoNormal(cfg: ControlFlowGraph, k: int)
    ensures cfg.NormalFrom(k) == [] <==> OnlyRaises(cfg, k)
  {
    var normal := cfg.NormalFrom(k);
    if normal != [] {
      assert normal[0] in normal;
      assert normal[0] in cfg.edges && normal[0].source == k && normal[0].kind != Exception;
    }
    if e :| e in cfg.edges && e.source == k && e.kind != Exception {
      assert e in normal;
    }
  }

  /** The range of offsets holds exactly the tokens of the range of indices. */
  lemma RangeMeans(tokens: seq<Instruction>, start: int, end: int, i: int)
    requires Increasing(tokens) && 0 <= start < end <= |tokens| && 0 <= i < |tokens|
    ensures tokens[start].offset <= tokens[i].offset < RegionEndOffset(tokens, end) <==> start <= i < end
  {
  }

  /** At least 32 pops are allowed, and four for each block. */
  lemma LimitMeans(interval: set<int>)
    ensures 32 <= WorkLimit(interval) && 4 * |interval| <= WorkLimit(interval)
    ensures WorkLimit(interval) == 32 || WorkLimit(interval) == 4 * |interval|
  {
  }
}
