/** Owning the return, break and continue sinks that follow a protected loop body. */
module LoopFrontiers {
  import opened Options
  import opened Graphs
  import opened Sets
  import opened ExceptionTables
  import opened Opcodes
  import opened ControlFlowGraphs
  import opened TerminalIntervals
  import opened ImplicitReturns
  import Sorting

  datatype LoopContext = LoopContext(breakTarget: int, continueTargets: set<int>)

  datatype Frontier = Frontier(
    endIndex: int, ownedBlocks: set<int>, returnBlocks: set<int>, continueBlocks: set<int>, breakBlocks: set<int>,
    cleanupOffsets: set<int>)

  /** The tokens of a range that are not ignored. */
  function Semantic(tokens: seq<Instruction>, lo: int, hi: int): seq<Instruction>
    requires 0 <= lo <= |tokens| && hi <= |tokens|
    decreases hi - lo
  {
    if lo >= hi then [] else
      (if tokens[lo].kind.Ignored? then [] else [tokens[lo]]) + Semantic(tokens, lo + 1, hi)
  }

  /** The semantic tokens of one block, located by its start and end offsets. */
  function BlockTokens(tokens: seq<Instruction>, b: BasicBlock): Option<seq<Instruction>> {
    var lo, hi := IndexOf(tokens, b.start), IndexOf(tokens, b.end);
    if lo == None || hi == None then None else Some(Semantic(tokens, lo.value, hi.value))
  }

  /** What a gap block may do once leading POP_TOPs are gone. */
  datatype Sink = Returns | Continues | Breaks

  predicate PopsThen(semantic: seq<Instruction>, n: nat) {
    n <= |semantic| && forall i :: 0 <= i < n ==> semantic[i].kind.PopTop?
  }

  /** A constant is loaded and returned, and nothing follows. */
  predicate ReturnShape(cfg: ControlFlowGraph, k: int, semantic: seq<Instruction>, n: nat)
    requires cfg.WellFormed() && 0 <= k < |cfg.blocks|
  {
    && n + 2 == |semantic|
    && semantic[n].kind.LoadConst? && semantic[n + 1].kind.ReturnValue?
    && cfg.LastKind(k).ReturnValue? && cfg.NormalFrom(k) == []
  }

  /** The only normal edge goes to the block at the given offset. */
  predicate SoleTarget(cfg: ControlFlowGraph, k: int, o: int)
    requires cfg.WellFormed() && 0 <= k < |cfg.blocks|
  {
    && |cfg.NormalFrom(k)| == 1
    && cfg.NormalFrom(k)[0].target < |cfg.blocks| && 0 <= cfg.NormalFrom(k)[0].target
    && cfg.blocks[cfg.NormalFrom(k)[0].target].start == o
  }

  /** A lone backward jump to a continue target. */
  predicate ContinueShape(cfg: ControlFlowGraph, k: int, semantic: seq<Instruction>, loop: LoopContext)
    requires cfg.WellFormed() && 0 <= k < |cfg.blocks|
  {
    && |semantic| == 1
    && (semantic[0].kind.JumpBackward? || semantic[0].kind.JumpBackwardNoInterrupt?)
    && InstructionTarget(semantic[0]).Some? && InstructionTarget(semantic[0]).value in loop.continueTargets
    && cfg.LastKind(k) == semantic[0].kind
    && SoleTarget(cfg, k, InstructionTarget(semantic[0]).value)
  }

  /** A forward jump to the break target after the cleanup. */
  predicate BreakShape(cfg: ControlFlowGraph, k: int, semantic: seq<Instruction>, n: nat, loop: LoopContext)
    requires cfg.WellFormed() && 0 <= k < |cfg.blocks|
  {
    && n + 1 == |semantic|
    && semantic[n].kind.JumpForward?
    && InstructionTarget(semantic[n]) == Some(loop.breakTarget)
    && cfg.LastKind(k).JumpForward?
    && SoleTarget(cfg, k, loop.breakTarget)
  }

  predicate NoExceptionEdges(cfg: ControlFlowGraph, k: int) {
    forall e :: e in cfg.edges && (e.source == k || e.target == k) ==> !e.kind.Exception?
  }

  /** Block k is a proven sink of one sort. */
  ghost predicate IsSink(tokens: seq<Instruction>, cfg: ControlFlowGraph, k: int, loop: LoopContext, sink: Sink)
    requires cfg.WellFormed() && 0 <= k < |cfg.blocks|
  {
    && BlockTokens(tokens, cfg.blocks[k]).Some?
    && NoExceptionEdges(cfg, k)
    && var semantic := BlockTokens(tokens, cfg.blocks[k]).value;
       match sink
       case Returns => exists n: nat :: PopsThen(semantic, n) && ReturnShape(cfg, k, semantic, n)
       case Continues => ContinueShape(cfg, k, semantic, loop)
       case Breaks => exists n: nat :: PopsThen(semantic, n) && BreakShape(cfg, k, semantic, n, loop)
  }

  /** A leading POP_TOP at offset o. */
  ghost predicate LeadingPop(semantic: seq<Instruction>, o: int) {
    exists i: nat :: i < |semantic| && PopsThen(semantic, i + 1) && semantic[i].offset == o
  }

  lemma LeadingPopsBelow(semantic: seq<Instruction>, n: nat, o: int)
    requires PopsThen(semantic, n) && (n < |semantic| ==> !semantic[n].kind.PopTop?)
    ensures LeadingPop(semantic, o) <==> exists i :: 0 <= i < n && semantic[i].offset == o
  {
    if LeadingPop(semantic, o) {
      var i: nat :| i < |semantic| && PopsThen(semantic, i + 1) && semantic[i].offset == o;
      assert semantic[i].kind.PopTop?;
      assert i < n;
    }
    if i :| 0 <= i < n && semantic[i].offset == o {
      var m: nat := i;
      assert PopsThen(semantic, m + 1);
    }
  }

  method CountPops(semantic: seq<Instruction>, cleanup: set<int>) returns (n: nat, cleanup': set<int>)
    ensures PopsThen(semantic, n) && (n < |semantic| ==> !semantic[n].kind.PopTop?)
    ensures forall o :: o in cleanup' <==> o in cleanup || LeadingPop(semantic, o)
  {
    n, cleanup' := 0, cleanup;
    while n < |semantic| && semantic[n].kind.PopTop?
      invariant PopsThen(semantic, n)
      invariant forall o :: o in cleanup' <==> o in cleanup || exists i :: 0 <= i < n && semantic[i].offset == o
    {
      cleanup' := cleanup' + {semantic[n].offset};
      n := n + 1;
    }
    forall o ensures o in cleanup' <==> o in cleanup || LeadingPop(semantic, o) {
      LeadingPopsBelow(semantic, n, o);
    }
  }

  /** A leading pop of block k. */
  ghost predicate CleanupOf(tokens: seq<Instruction>, cfg: ControlFlowGraph, k: int, o: int) {
    0 <= k < |cfg.blocks| && BlockTokens(tokens, cfg.blocks[k]).Some?
    && LeadingPop(BlockTokens(tokens, cfg.blocks[k]).value, o)
  }

  /** The count of leading pops is the only one that fits a shape, and the shapes exclude each other. */
  lemma ShapesDecided(tokens: seq<Instruction>, cfg: ControlFlowGraph, k: int, loop: LoopContext,
                      semantic: seq<Instruction>, n: nat)
    requires cfg.WellFormed() && 0 <= k < |cfg.blocks|
    requires BlockTokens(tokens, cfg.blocks[k]) == Some(semantic) && NoExceptionEdges(cfg, k)
    requires PopsThen(semantic, n) && (n < |semantic| ==> !semantic[n].kind.PopTop?)
    ensures IsSink(tokens, cfg, k, loop, Returns) <==> ReturnShape(cfg, k, semantic, n)
    ensures IsSink(tokens, cfg, k, loop, Continues) <==> n == 0 && ContinueShape(cfg, k, semantic, loop)
    ensures IsSink(tokens, cfg, k, loop, Breaks) <==> BreakShape(cfg, k, semantic, n, loop)
  {
    hide BlockTokens, SoleTarget;
    forall m: nat | PopsThen(semantic, m) ensures m <= n && (m < n ==> semantic[m].kind.PopTop?) {
    }
  }

  lemma OneSort(tokens: seq<Instruction>, cfg: ControlFlowGraph, k: int, loop: LoopContext, a: Sink, b: Sink)
    requires cfg.WellFormed() && 0 <= k < |cfg.blocks|
    requires IsSink(tokens, cfg, k, loop, a) && IsSink(tokens, cfg, k, loop, b)
    ensures a == b
  {
    hide BlockTokens, SoleTarget, PopsThen;
  }

  method ClassifyBlock(tokens: seq<Instruction>, cfg: ControlFlowGraph, k: int, loop: LoopContext, cleanup: set<int>)
    returns (sink: Option<Sink>, cleanup': set<int>)
    requires cfg.WellFormed() && 0 <= k < |cfg.blocks|
    ensures match sink
            case Some(s) => IsSink(tokens, cfg, k, loop, s)
            case None => forall s :: !IsSink(tokens, cfg, k, loop, s)
    ensures sink.Some? ==> forall o :: o in cleanup' <==> o in cleanup || CleanupOf(tokens, cfg, k, o)
  {
    hide BlockTokens, SoleTarget, LeadingPop;
    cleanup' := cleanup;
    var block := BlockTokens(tokens, cfg.blocks[k]);
    if block == None || block.value == [] || !NoExceptionEdges(cfg, k) {
      return None, cleanup;
    }
    var semantic := block.value;
    var n;
    n, cleanup' := CountPops(semantic, cleanup);
    ShapesDecided(tokens, cfg, k, loop, semantic, n);
    hide IsSink, ReturnShape, ContinueShape, BreakShape;
    if ReturnShape(cfg, k, semantic, n) {
      return Some(Returns), cleanup';
    }
    if n == 0 && ContinueShape(cfg, k, semantic, loop) {
      return Some(Continues), cleanup';
    }
    if BreakShape(cfg, k, semantic, n, loop) {
      return Some(Breaks), cleanup';
    }
    sink := None;
    forall s ensures !IsSink(tokens, cfg, k, loop, s) {
      match s {
        case Returns =>
        case Continues =>
        case Breaks =>
      }
    }
  }

  /** Each class holds exactly the gap blocks of its sort. */
  ghost predicate Classified(tokens: seq<Instruction>, cfg: ControlFlowGraph, loop: LoopContext, gap: set<int>,
                             returned: set<int>, continues: set<int>, breaks: set<int>)
    requires cfg.WellFormed() && forall k :: k in gap ==> 0 <= k < |cfg.blocks|
  {
    && (forall k :: k in returned <==> k in gap && IsSink(tokens, cfg, k, loop, Returns))
    && (forall k :: k in continues <==> k in gap && IsSink(tokens, cfg, k, loop, Continues))
    && (forall k :: k in breaks <==> k in gap && IsSink(tokens, cfg, k, loop, Breaks))
  }

  ghost predicate AllSinks(tokens: seq<Instruction>, cfg: ControlFlowGraph, loop: LoopContext, gap: set<int>)
    requires cfg.WellFormed() && forall k :: k in gap ==> 0 <= k < |cfg.blocks|
  {
    forall k {:trigger IsSomeSink(tokens, cfg, k, loop)} :: k in gap ==> IsSomeSink(tokens, cfg, k, loop)
  }

  ghost predicate IsSomeSink(tokens: seq<Instruction>, cfg: ControlFlowGraph, k: int, loop: LoopContext)
    requires cfg.WellFormed() && 0 <= k < |cfg.blocks|
  {
    exists s :: IsSink(tokens, cfg, k, loop, s)
  }

  datatype Classes = Classes(returned: set<int>, continues: set<int>, breaks: set<int>, cleanup: set<int>)

  method ClassifyAll(tokens: seq<Instruction>, cfg: ControlFlowGraph, loop: LoopContext, gap: set<int>)
    returns (r: Option<Classes>)
    requires cfg.WellFormed() && forall k :: k in gap ==> 0 <= k < |cfg.blocks|
    ensures r.Some? <==> AllSinks(tokens, cfg, loop, gap)
    ensures r.Some? ==> Classified(tokens, cfg, loop, gap, r.value.returned, r.value.continues, r.value.breaks)
    ensures r.Some? ==> forall o :: o in r.value.cleanup <==> exists k :: k in gap && CleanupOf(tokens, cfg, k, o)
  {
    hide IsSink, CleanupOf;
    var c := Classes({}, {}, {}, {});
    for k := 0 to |cfg.blocks|
      invariant forall b :: b in c.returned <==> b in gap && b < k && IsSink(tokens, cfg, b, loop, Returns)
      invariant forall b :: b in c.continues <==> b in gap && b < k && IsSink(tokens, cfg, b, loop, Continues)
      invariant forall b :: b in c.breaks <==> b in gap && b < k && IsSink(tokens, cfg, b, loop, Breaks)
      invariant forall b :: b in gap && b < k ==> IsSomeSink(tokens, cfg, b, loop)
      invariant forall o :: o in c.cleanup <==> exists b :: b in gap && b < k && CleanupOf(tokens, cfg, b, o)
    {
      if k !in gap {
        continue;
      }
      var sink, cleanup := ClassifyBlock(tokens, cfg, k, loop, c.cleanup);
      if sink == None {
        assert !IsSomeSink(tokens, cfg, k, loop);
        return None;
      }
      forall s ensures IsSink(tokens, cfg, k, loop, s) <==> s == sink.value {
        if IsSink(tokens, cfg, k, loop, s) {
          OneSort(tokens, cfg, k, loop, s, sink.value);
        }
      }
      c := Add(c, k, sink.value).(cleanup := cleanup);
    }
    r := Some(c);
  }

  function Add(c: Classes, k: int, sink: Sink): Classes {
    match sink
    case Returns => c.(returned := c.returned + {k})
    case Continues => c.(continues := c.continues + {k})
    case Breaks => c.(breaks := c.breaks + {k})
  }

  // ---------- ownership of the gap ----------

  predicate InFragments(fragments: seq<Region>, o: int) {
    exists f :: f in fragments && f.start <= o < f.end
  }

  function ProtectedBlocks(cfg: ControlFlowGraph, fragments: seq<Region>): (s: set<int>)
    ensures forall k :: k in s <==> 0 <= k < |cfg.blocks| && InFragments(fragments, cfg.blocks[k].start)
  {
    set k | 0 <= k < |cfg.blocks| && InFragments(fragments, cfg.blocks[k].start)
  }

  /** Every gap block has normal predecessors, all of them protected or in the gap. */
  predicate OnlyOwnedPredecessors(cfg: ControlFlowGraph, gap: set<int>, owned: set<int>) {
    && (forall k :: k in gap ==> NormalOnly(EdgesInto(cfg.edges, k)) != [])
    && (forall e :: e in cfg.edges && e.target in gap && !e.kind.Exception? ==> e.source in owned)
  }

  function EntryBlocks(cfg: ControlFlowGraph, gap: set<int>, protected: set<int>): (s: set<int>)
    ensures forall k :: k in s <==>
              k in gap && exists e :: e in cfg.edges && e.target == k && !e.kind.Exception? && e.source in protected
  {
    set k | k in gap && exists e :: e in cfg.edges && e.target == k && !e.kind.Exception? && e.source in protected
  }

  /** v lies on a walk inside the gap that starts at an entry block. */
  ghost predicate EnteredFrom(cfg: ControlFlowGraph, gap: set<int>, entries: set<int>, v: int) {
    exists u :: u in entries && Reaches(Inside(cfg, gap), u, v)
  }

  /** Gap blocks have no exception edges and at most one normal edge. */
  predicate Narrow(cfg: ControlFlowGraph, gap: set<int>) {
    && (forall k :: k in gap ==> 0 <= k < |cfg.blocks|)
    && (forall k :: k in gap ==> |cfg.NormalFrom(k)| <= 1)
    && (forall k :: k in gap ==> NoExceptionEdges(cfg, k))
  }

  /** Everything met is entered, successors are met, and pops are paid for by entries and visits. */
  ghost predicate WalksGap(cfg: ControlFlowGraph, gap: set<int>, entries: set<int>, visited: set<int>,
                           pending: seq<int>, workCount: int) {
    && (forall k :: k in visited || k in pending ==> k in gap)
    && (forall k {:trigger EnteredFrom(cfg, gap, entries, k)} :: k in visited || k in pending ==>
         EnteredFrom(cfg, gap, entries, k))
    && (forall k :: k in entries ==> k in visited || k in pending)
    && (forall e :: e in cfg.edges && e.source in visited && e.target in gap ==>
         e.target in visited || e.target in pending)
    && workCount + |pending| <= |entries| + |visited|
  }

  function ListOf(s: set<int>): seq<int> {
    Sorting.Sorted(s)
  }

  lemma GapStarts(cfg: ControlFlowGraph, gap: set<int>, entries: set<int>)
    requires forall k :: k in entries ==> k in gap
    ensures WalksGap(cfg, gap, entries, {}, ListOf(entries), 0)
  {
    hide EnteredFrom;
    forall k | k in entries ensures EnteredFrom(cfg, gap, entries, k) {
      EnteredAtEntry(cfg, gap, entries, k);
    }
  }

  function Queued(cfg: ControlFlowGraph, gap: set<int>, rest: seq<int>, k: int): seq<int> {
    rest + TargetsWithin(cfg.NormalFrom(k), gap)
  }

  lemma GapVisits(cfg: ControlFlowGraph, gap: set<int>, entries: set<int>, visited: set<int>,
                  rest: seq<int>, k: int, workCount: int)
    requires Narrow(cfg, gap) && WalksGap(cfg, gap, entries, visited, rest + [k], workCount) && k !in visited
    ensures k in gap
    ensures WalksGap(cfg, gap, entries, visited + {k}, Queued(cfg, gap, rest, k), workCount + 1)
  {
    hide EnteredFrom, TargetsWithin;
    var more := Queued(cfg, gap, rest, k);
    assert k in rest + [k];
    WithinFew(cfg.NormalFrom(k), gap);
    forall m | m in more ensures m in gap && EnteredFrom(cfg, gap, entries, m) {
      if m in rest {
        assert m in rest + [k];
      } else {
        GapStep(cfg, gap, entries, k, m);
      }
    }
    forall m | m in entries ensures m in visited + {k} || m in more {
      if m !in visited + {k} {
        assert m in rest + [k];
      }
    }
    forall e | e in cfg.edges && e.source in visited + {k} && e.target in gap
      ensures e.target in visited + {k} || e.target in more
    {
      if e.source == k {
        assert !e.kind.Exception?;
        assert e in cfg.NormalFrom(k);
      } else if e.target !in visited + {k} {
        assert e.target in rest + [k];
      }
    }
  }

  lemma {:induction false} WithinFew(edges: seq<Edge>, gap: set<int>)
    ensures |TargetsWithin(edges, gap)| <= |edges|
  {
    if edges != [] {
      WithinFew(edges[1..], gap);
    }
  }

  lemma GapSkips(cfg: ControlFlowGraph, gap: set<int>, entries: set<int>, visited: set<int>,
                 rest: seq<int>, k: int, workCount: int)
    requires WalksGap(cfg, gap, entries, visited, rest + [k], workCount) && k in visited
    ensures WalksGap(cfg, gap, entries, visited, rest, workCount + 1)
  {
    hide EnteredFrom;
    forall m | m in rest ensures m in rest + [k] {
    }
    forall m | m in entries ensures m in visited || m in rest {
      if m !in visited {
        assert m in rest + [k];
      }
    }
    forall e | e in cfg.edges && e.source in visited && e.target in gap
      ensures e.target in visited || e.target in rest
    {
      if e.target !in visited {
        assert e.target in rest + [k];
      }
    }
  }

  /** Entries and visits are gap blocks, so the pops stay within twice the number of blocks. */
  lemma GapWithinLimit(cfg: ControlFlowGraph, gap: set<int>, entries: set<int>, visited: set<int>, pending: seq<int>,
                       workCount: int)
    requires Narrow(cfg, gap) && WalksGap(cfg, gap, entries, visited, pending, workCount)
    requires forall k :: k in entries ==> k in gap
    ensures workCount + |pending| <= 2 * |cfg.blocks|
  {
    hide EnteredFrom;
    var all := Below(|cfg.blocks|);
    Subset(visited, all);
    Subset(entries, all);
    SubsetSize(visited, all);
    SubsetSize(entries, all);
    BelowSize(|cfg.blocks|);
  }

  lemma GapDone(cfg: ControlFlowGraph, gap: set<int>, entries: set<int>, visited: set<int>, workCount: int)
    requires WalksGap(cfg, gap, entries, visited, [], workCount)
    ensures forall k :: k in visited <==> EnteredFrom(cfg, gap, entries, k)
    ensures forall k :: k in visited ==> k in gap
  {
    forall u, v | u in entries && Reaches(Inside(cfg, gap), u, v) ensures v in visited {
      GapClosed(cfg, gap, visited);
      SeenAll(Inside(cfg, gap), visited, u);
    }
  }

  lemma GapClosed(cfg: ControlFlowGraph, gap: set<int>, visited: set<int>)
    requires forall e :: e in cfg.edges && e.source in visited && e.target in gap ==> e.target in visited
    ensures forall k, m :: k in visited && Step(Inside(cfg, gap), k, m) ==> m in visited
  {
    forall k, m | k in visited && Step(Inside(cfg, gap), k, m) ensures m in visited {
      var e :| e in cfg.edges && e.source == k && e.target == m;
    }
  }

  /** Walk the gap from its entry blocks; gap blocks have too few edges for the work limit to be hit. */
  method WalkGap(cfg: ControlFlowGraph, gap: set<int>, entries: set<int>) returns (r: Option<set<int>>)
    requires Narrow(cfg, gap) && forall k :: k in entries ==> k in gap
    ensures r.Some? && forall k :: k in r.value <==> EnteredFrom(cfg, gap, entries, k)
    ensures forall k :: k in r.value ==> k in gap
  {
    hide EnteredFrom, WalksGap, Narrow, Queued, ListOf;
    var pending := ListOf(entries);
    var visited: set<int> := {};
    var workLimit := if |cfg.blocks| * 2 > 32 then |cfg.blocks| * 2 else 32;
    var workCount := 0;
    GapStarts(cfg, gap, entries);
    while pending != []
      invariant WalksGap(cfg, gap, entries, visited, pending, workCount) && workCount <= workLimit
      decreases workLimit - workCount
    {
      GapWithinLimit(cfg, gap, entries, visited, pending, workCount);
      workCount := workCount + 1;
      if workCount > workLimit {
        return None;
      }
      var k := pending[|pending| - 1];
      var rest := pending[..|pending| - 1];
      assert pending == rest + [k];
      pending := rest;
      if k in visited {
        GapSkips(cfg, gap, entries, visited, rest, k, workCount - 1);
        continue;
      }
      GapVisits(cfg, gap, entries, visited, rest, k, workCount - 1);
      if k !in gap {
        return None;
      }
      visited := visited + {k};
      pending := Queued(cfg, gap, rest, k);
    }
    GapDone(cfg, gap, entries, visited, workCount);
    r := Some(visited);
  }

  lemma EnteredAtEntry(cfg: ControlFlowGraph, gap: set<int>, entries: set<int>, k: int)
    requires k in entries
    ensures EnteredFrom(cfg, gap, entries, k)
  {
    ConnectsSelf(Inside(cfg, gap), k, {});
  }

  lemma GapStep(cfg: ControlFlowGraph, gap: set<int>, entries: set<int>, k: int, m: int)
    requires EnteredFrom(cfg, gap, entries, k) && k in gap && m in gap
    requires exists e :: e in cfg.NormalFrom(k) && e.target == m
    ensures EnteredFrom(cfg, gap, entries, m)
  {
    var u :| u in entries && Reaches(Inside(cfg, gap), u, k);
    var e :| e in cfg.NormalFrom(k) && e.target == m;
    assert e in cfg.edges;
    assert m in Graph(gap, cfg.edges, 0).Successors(k);
    ConnectsStep(Inside(cfg, gap), k, m, {});
    ConnectsTrans(Inside(cfg, gap), u, k, m, {});
  }

  /** The gap is reached only from the protected body, and all of it is. */
  ghost predicate OwnedGap(cfg: ControlFlowGraph, fragments: seq<Region>, gap: set<int>) {
    && OnlyOwnedPredecessors(cfg, gap, ProtectedBlocks(cfg, fragments) + gap)
    && var entries := EntryBlocks(cfg, gap, ProtectedBlocks(cfg, fragments));
       forall k {:trigger EnteredFrom(cfg, gap, entries, k)} :: k in gap ==> EnteredFrom(cfg, gap, entries, k)
  }

  /** What a frontier says about an owned gap of sinks. */
  ghost predicate Owned(tokens: seq<Instruction>, cfg: ControlFlowGraph, fragments: seq<Region>, loop: LoopContext,
                        gap: set<int>, f: Frontier)
    requires cfg.WellFormed()
  {
    && f.ownedBlocks == gap
    && (forall k :: k in gap ==> 0 <= k < |cfg.blocks|)
    && AllSinks(tokens, cfg, loop, gap)
    && OwnedGap(cfg, fragments, gap)
    && Classified(tokens, cfg, loop, gap, f.returnBlocks, f.continueBlocks, f.breakBlocks)
    && (forall o :: o in f.cleanupOffsets <==> exists k :: k in gap && CleanupOf(tokens, cfg, k, o))
  }

  lemma SinksNarrow(tokens: seq<Instruction>, cfg: ControlFlowGraph, loop: LoopContext, gap: set<int>)
    requires cfg.WellFormed() && (forall k :: k in gap ==> 0 <= k < |cfg.blocks|) && AllSinks(tokens, cfg, loop, gap)
    ensures Narrow(cfg, gap)
  {
    hide IsSink;
    forall k | k in gap ensures |cfg.NormalFrom(k)| <= 1 && NoExceptionEdges(cfg, k) {
      assert IsSomeSink(tokens, cfg, k, loop);
      var s :| IsSink(tokens, cfg, k, loop, s);
      SinkNarrow(tokens, cfg, k, loop, s);
    }
  }

  lemma SinkNarrow(tokens: seq<Instruction>, cfg: ControlFlowGraph, k: int, loop: LoopContext, s: Sink)
    requires cfg.WellFormed() && 0 <= k < |cfg.blocks| && IsSink(tokens, cfg, k, loop, s)
    ensures |cfg.NormalFrom(k)| <= 1 && NoExceptionEdges(cfg, k)
  {
    hide BlockTokens, PopsThen;
  }

  /** Whether the protected body owns the gap. */
  method OwnGap(cfg: ControlFlowGraph, fragments: seq<Region>, gap: set<int>) returns (ok: bool)
    requires Narrow(cfg, gap) && gap != {}
    ensures ok <==> OwnedGap(cfg, fragments, gap)
  {
    hide OnlyOwnedPredecessors, EnteredFrom, Narrow, InFragments;
    var protected := ProtectedBlocks(cfg, fragments);
    if !OnlyOwnedPredecessors(cfg, gap, protected + gap) {
      return false;
    }
    var entries := EntryBlocks(cfg, gap, protected);
    if protected == {} || entries == {} {
      NothingEntered(cfg, gap, entries);
      return false;
    }
    var visited := WalkGap(cfg, gap, entries);
    if visited.value != gap {
      NotEntered(cfg, gap, entries, visited.value);
      return false;
    }
    ok := true;
  }

  lemma NothingEntered(cfg: ControlFlowGraph, gap: set<int>, entries: set<int>)
    requires gap != {} && forall u :: u !in entries
    ensures !(forall k :: k in gap ==> EnteredFrom(cfg, gap, entries, k))
  {
    var k := Pick(gap);
    assert !EnteredFrom(cfg, gap, entries, k);
  }

  lemma NotEntered(cfg: ControlFlowGraph, gap: set<int>, entries: set<int>, visited: set<int>)
    requires visited != gap && forall k :: k in visited <==> EnteredFrom(cfg, gap, entries, k)
    requires forall k :: k in visited ==> k in gap
    ensures !(forall k :: k in gap ==> EnteredFrom(cfg, gap, entries, k))
  {
    hide EnteredFrom;
    if forall k :: k in gap ==> EnteredFrom(cfg, gap, entries, k) {
      forall k ensures k in visited <==> k in gap {
      }
      Extensional(visited, gap);
    }
  }

  /** The gap between the protected body and the handler. */
  function Gap(tokens: seq<Instruction>, cfg: ControlFlowGraph, bodyEnd: nat, handlerIndex: nat): set<int>
    requires bodyEnd < |tokens| && handlerIndex < |tokens|
  {
    BlocksWithin(cfg, tokens[bodyEnd].offset, tokens[handlerIndex].offset)
  }

  /** The gap begins at a block, is not empty, and ends before the handler. */
  predicate GapFits(tokens: seq<Instruction>, cfg: ControlFlowGraph, bodyEnd: nat, handlerIndex: nat)
    requires cfg.WellFormed() && bodyEnd < |tokens| && handlerIndex < |tokens|
  {
    var lower := tokens[bodyEnd].offset;
    && lower in cfg.offsetToBlock && cfg.blocks[cfg.offsetToBlock[lower]].start == lower
    && Gap(tokens, cfg, bodyEnd, handlerIndex) != {}
    && forall k :: k in Gap(tokens, cfg, bodyEnd, handlerIndex) ==> cfg.blocks[k].end <= tokens[handlerIndex].offset
  }

  /** A frontier exactly when the gap consists of sinks that the protected body owns. */
  method ProtectedLoopTerminalFrontier(tokens: seq<Instruction>, cfg: ControlFlowGraph, fragments: seq<Region>,
                                       bodyEnd: int, handlerIndex: int, loop: Option<LoopContext>)
    returns (r: Option<Frontier>)
    requires cfg.WellFormed() && handlerIndex < |tokens|
    ensures r.Some? <==>
              && loop.Some? && 0 <= bodyEnd < handlerIndex && GapFits(tokens, cfg, bodyEnd, handlerIndex)
              && AllSinks(tokens, cfg, loop.value, Gap(tokens, cfg, bodyEnd, handlerIndex))
              && OwnedGap(cfg, fragments, Gap(tokens, cfg, bodyEnd, handlerIndex))
    ensures r.Some? ==>
              && r.value.endIndex == handlerIndex
              && Owned(tokens, cfg, fragments, loop.value, Gap(tokens, cfg, bodyEnd, handlerIndex), r.value)
  {
    hide Classified, AllSinks, OwnedGap, CleanupOf, Narrow;
    if loop == None || !(0 <= bodyEnd < handlerIndex) {
      return None;
    }
    if !GapFits(tokens, cfg, bodyEnd, handlerIndex) {
      return None;
    }
    var gap := Gap(tokens, cfg, bodyEnd, handlerIndex);
    var classes := ClassifyAll(tokens, cfg, loop.value, gap);
    if classes == None {
      return None;
    }
    SinksNarrow(tokens, cfg, loop.value, gap);
    var owned := OwnGap(cfg, fragments, gap);
    if !owned {
      return None;
    }
    var c := classes.value;
    r := Some(Frontier(handlerIndex, gap, c.returned, c.continues, c.breaks, c.cleanup));
  }

  // ---------- what a frontier means for runs ----------

  /** The three classes partition the gap. */
  lemma ClassesPartition(tokens: seq<Instruction>, cfg: ControlFlowGraph, fragments: seq<Region>, loop: LoopContext,
                         gap: set<int>, f: Frontier)
    requires cfg.WellFormed() && Owned(tokens, cfg, fragments, loop, gap, f)
    ensures f.returnBlocks + f.continueBlocks + f.breakBlocks == gap
    ensures |gap| == |f.returnBlocks| + |f.continueBlocks| + |f.breakBlocks|
  {
    hide IsSink, CleanupOf, OwnedGap;
    forall k | k in f.returnBlocks ensures k !in f.continueBlocks && k !in f.breakBlocks {
      OnlySort(tokens, cfg, k, loop, Returns);
    }
    forall k | k in f.continueBlocks ensures k !in f.breakBlocks {
      OnlySort(tokens, cfg, k, loop, Continues);
    }
    forall k ensures k in gap <==> k in f.returnBlocks || k in f.continueBlocks || k in f.breakBlocks {
      if k in gap {
        assert IsSomeSink(tokens, cfg, k, loop);
        var s :| IsSink(tokens, cfg, k, loop, s);
        match s {
          case Returns =>
          case Continues =>
          case Breaks =>
        }
      }
    }
    DisjointUnion(f.returnBlocks, f.continueBlocks, f.breakBlocks, gap);
  }

  lemma OnlySort(tokens: seq<Instruction>, cfg: ControlFlowGraph, k: int, loop: LoopContext, a: Sink)
    requires cfg.WellFormed() && 0 <= k < |cfg.blocks| && IsSink(tokens, cfg, k, loop, a)
    ensures forall b :: b != a ==> !IsSink(tokens, cfg, k, loop, b)
  {
    hide IsSink;
    forall b | IsSink(tokens, cfg, k, loop, b) ensures b == a {
      OneSort(tokens, cfg, k, loop, a, b);
    }
  }

  lemma DisjointUnion<T>(a: set<T>, b: set<T>, c: set<T>, all: set<T>)
    requires forall x :: x in a ==> x !in b && x !in c
    requires forall x :: x in b ==> x !in c
    requires forall x :: x in all <==> x in a || x in b || x in c
    ensures a + b + c == all && |all| == |a| + |b| + |c|
  {
    assert a + b + c == all;
    assert |a + b| == |a| + |b|;
    assert |a + b + c| == |a + b| + |c|;
  }

  /** A run from outside the gap enters it, each time, from a protected block. */
  lemma EntersFromProtected(tokens: seq<Instruction>, cfg: ControlFlowGraph, fragments: seq<Region>, loop: LoopContext,
                            gap: set<int>, f: Frontier, p: seq<Edge>, i: nat)
    requires cfg.WellFormed() && Owned(tokens, cfg, fragments, loop, gap, f)
    requires Follows(cfg, p) && i < |p| && p[0].source !in gap && p[i].target in gap
    ensures exists j :: 0 <= j <= i && p[j].source in ProtectedBlocks(cfg, fragments) && p[j].source !in gap
                        && p[j].target in gap && !p[j].kind.Exception?
                        && forall k :: j <= k <= i ==> p[k].target in gap
  {
    hide CleanupOf, EnteredFrom, Classified, AllSinks;
    var j := i;
    while p[j].source in gap
      invariant 0 <= j <= i && p[j].target in gap
      invariant forall k :: j <= k <= i ==> p[k].target in gap
      decreases j
    {
      assert p[j - 1].target == p[j].source;
      j := j - 1;
    }
    assert p[j] in cfg.edges;
    GapEdgesNormal(tokens, cfg, fragments, loop, gap, f, p[j]);
  }

  lemma GapEdgesNormal(tokens: seq<Instruction>, cfg: ControlFlowGraph, fragments: seq<Region>, loop: LoopContext,
                       gap: set<int>, f: Frontier, e: Edge)
    requires cfg.WellFormed() && Owned(tokens, cfg, fragments, loop, gap, f)
    requires e in cfg.edges && (e.source in gap || e.target in gap)
    ensures !e.kind.Exception?
  {
    hide CleanupOf, OwnedGap, Classified, AllSinks;
    var k := if e.source in gap then e.source else e.target;
    SinkHasNoExceptions(tokens, cfg, fragments, loop, gap, f, k);
  }

  lemma SinkHasNoExceptions(tokens: seq<Instruction>, cfg: ControlFlowGraph, fragments: seq<Region>, loop: LoopContext,
                            gap: set<int>, f: Frontier, k: int)
    requires cfg.WellFormed() && Owned(tokens, cfg, fragments, loop, gap, f) && k in gap
    ensures NoExceptionEdges(cfg, k)
  {
    hide CleanupOf, OwnedGap, Classified, IsSink;
    SinksNarrow(tokens, cfg, loop, gap);
  }

  ghost function StartOf(cfg: ControlFlowGraph, k: int): int
    requires cfg.WellFormed() && 0 <= k < |cfg.blocks|
    reads cfg.blocks
  {
    cfg.blocks[k].start
  }

  /** The edges of each sort of gap block. */
  lemma SinkEdges(tokens: seq<Instruction>, cfg: ControlFlowGraph, fragments: seq<Region>, loop: LoopContext,
                  gap: set<int>, f: Frontier, k: int)
    requires cfg.WellFormed() && Owned(tokens, cfg, fragments, loop, gap, f) && k in gap
    ensures k in f.returnBlocks <==> forall e :: e in cfg.edges ==> e.source != k
    ensures k in f.returnBlocks ==> ReturnsConstant(tokens, cfg, k)
    ensures forall e :: e in cfg.edges && e.source == k ==>
              && !e.kind.Exception?
              && (k in f.continueBlocks ==> StartOf(cfg, e.target) in loop.continueTargets)
              && (k in f.breakBlocks ==> StartOf(cfg, e.target) == loop.breakTarget)
  {
    hide CleanupOf, OwnedGap;
    assert IsSomeSink(tokens, cfg, k, loop);
    var s :| IsSink(tokens, cfg, k, loop, s);
    OnlySort(tokens, cfg, k, loop, s);
    assert NoExceptionEdges(cfg, k);
    forall e | e in cfg.edges && e.source == k ensures e in cfg.NormalFrom(k) {
    }
    forall e | e in cfg.NormalFrom(k) ensures e in cfg.edges && e.source == k {
    }
    if k in f.returnBlocks {
      ReturnHasNoEdges(tokens, cfg, k, loop);
    } else {
      assert cfg.NormalFrom(k)[0] in cfg.NormalFrom(k);
    }
  }

  /** After some pops, block k only loads a constant and returns it. */
  ghost predicate ReturnsConstant(tokens: seq<Instruction>, cfg: ControlFlowGraph, k: int)
    requires cfg.WellFormed() && 0 <= k < |cfg.blocks|
  {
    exists semantic, n: nat ::
      BlockTokens(tokens, cfg.blocks[k]) == Some(semantic) && PopsThen(semantic, n) && ReturnShape(cfg, k, semantic, n)
  }

  /**
   Every step of a run out of a gap block is normal, and goes from a continue block to a continue
   target or from a break block to the break target.
   */
  lemma LeavesAsClassified(tokens: seq<Instruction>, cfg: ControlFlowGraph, fragments: seq<Region>, loop: LoopContext,
                           gap: set<int>, f: Frontier, p: seq<Edge>, i: nat)
    requires cfg.WellFormed() && Owned(tokens, cfg, fragments, loop, gap, f)
    requires Follows(cfg, p) && i < |p| && p[i].source in gap
    ensures p[i] in cfg.edges && !p[i].kind.Exception?
    ensures || (p[i].source in f.continueBlocks && StartOf(cfg, p[i].target) in loop.continueTargets)
            || (p[i].source in f.breakBlocks && StartOf(cfg, p[i].target) == loop.breakTarget)
  {
    hide Owned;
    SinkEdges(tokens, cfg, fragments, loop, gap, f, p[i].source);
    ClassesPartition(tokens, cfg, fragments, loop, gap, f);
    assert p[i].source in f.returnBlocks + f.continueBlocks + f.breakBlocks;
  }

  /** A run that arrives in the gap can go on exactly unless it has arrived at the return of a constant. */
  lemma StopsAtReturn(tokens: seq<Instruction>, cfg: ControlFlowGraph, fragments: seq<Region>, loop: LoopContext,
                      gap: set<int>, f: Frontier, p: seq<Edge>)
    requires cfg.WellFormed() && Owned(tokens, cfg, fragments, loop, gap, f)
    requires Follows(cfg, p) && p != [] && p[|p| - 1].target in gap
    ensures (forall e :: !Follows(cfg, p + [e])) <==> p[|p| - 1].target in f.returnBlocks
    ensures p[|p| - 1].target in f.returnBlocks ==>
              0 <= p[|p| - 1].target < |cfg.blocks| && ReturnsConstant(tokens, cfg, p[|p| - 1].target)
  {
    hide CleanupOf, OwnedGap, AllSinks, Classified, ReturnsConstant;
    var k := p[|p| - 1].target;
    SinkEdges(tokens, cfg, fragments, loop, gap, f, k);
    forall e ensures Follows(cfg, p + [e]) <==> e in cfg.edges && e.source == k {
      RunContinues(cfg, p, e);
    }
  }

  lemma ReturnHasNoEdges(tokens: seq<Instruction>, cfg: ControlFlowGraph, k: int, loop: LoopContext)
    requires cfg.WellFormed() && 0 <= k < |cfg.blocks| && IsSink(tokens, cfg, k, loop, Returns)
    ensures cfg.NormalFrom(k) == []
  {
  }
}
