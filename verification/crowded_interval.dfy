/**
 An interval whose blocks have so many handlers among themselves that the terminal-interval walk
 hits its work limit, although the interval passes every check.
 */
module CrowdedIntervals {
  import opened Options
  import opened Graphs
  import opened Sets
  import opened ExceptionTables
  import opened Opcodes
  import opened ControlFlowGraphs
  import opened TerminalIntervals
  import Sorting

  /** A conditional jump, six raises, a return, and the continuation after the interval. */
  function Crowded(): (code: seq<Instruction>)
    ensures |code| == 9 && Increasing(code) && forall i :: 0 <= i < 9 ==> code[i].offset == 2 * i
    ensures forall i :: 1 <= i < 9 ==> code[i].kind == if i <= 6 then RaiseVarargs else ReturnValue
    ensures code[0].kind == PopJump(false, WhenTrue) && InstructionTarget(code[0]) == Some(16)
    ensures forall i :: 1 <= i < 9 ==> InstructionTarget(code[i]) == None
  {
    var raise, done := RaiseVarargs, ReturnValue;
    [Instruction(0, PopJump(false, WhenTrue), Some(16), NoneAttr), Instruction(2, raise, None, NoneAttr),
     Instruction(4, raise, None, NoneAttr), Instruction(6, raise, None, NoneAttr),
     Instruction(8, raise, None, NoneAttr),
     Instruction(10, raise, None, NoneAttr), Instruction(12, raise, None, NoneAttr),
     Instruction(14, done, None, NoneAttr), Instruction(16, done, None, NoneAttr)]
  }

  /** Seven handlers, one at each instruction of the interval, protect the six raises. */
  function Handlers(): (regions: seq<Region>)
    ensures |regions| == 7 && forall t :: 0 <= t < 7 ==> regions[t] == Region(2, 14, 2 * t + 2, 0, false)
  {
    seq(7, t requires 0 <= t < 7 => Region(2, 14, 2 * t + 2, 0, false))
  }

  lemma EachLeads(i: nat)
    requires i < 9
    ensures Leader(Crowded(), Handlers(), Crowded()[i].offset)
  {
    hide Crowded, Handlers;
    var code, regions := Crowded(), Handlers();
    if 1 <= i <= 7 {
      assert regions[i - 1] in regions;
      assert Bounds(regions, 2 * i);
    } else if i == 8 {
      assert Marks(code, 0, 16);
    }
  }

  // ---------- code in which every instruction begins a block ----------

  lemma AllCut(code: seq<Instruction>, regions: seq<Region>)
    requires code != [] && forall i :: 0 <= i < |code| ==> Leader(code, regions, code[i].offset)
    ensures |LeaderCuts(code, regions)| == |code| && forall k :: 0 <= k < |code| ==> LeaderCuts(code, regions)[k] == k
  {
    hide Leader;
    var all := set i | 0 <= i < |code| && Leader(code, regions, code[i].offset);
    forall i ensures i in all <==> i in Below(|code|) {
    }
    Extensional(all, Below(|code|));
    BelowSize(|code|);
    var s := Sorting.Sorted(all);
    forall i | 0 <= i < |s| ensures 0 <= s[i] < |code| {
      assert s[i] in s;
    }
    AtLeast(s, |code|);
    AtMost(s, |code|, |code|);
  }

  lemma {:induction false} AtLeast(s: seq<int>, m: nat)
    requires m <= |s| && (forall i :: 0 <= i < |s| ==> 0 <= s[i])
    requires forall i, j :: 0 <= i < j < |s| ==> s[i] < s[j]
    ensures forall k :: 0 <= k < m ==> k <= s[k]
  {
    if m > 0 {
      AtLeast(s, m - 1);
      assert m > 1 ==> s[m - 2] < s[m - 1];
    }
  }

  lemma {:induction false} AtMost(s: seq<int>, n: nat, m: nat)
    requires |s| == n && m <= n && (forall i :: 0 <= i < n ==> s[i] < n)
    requires forall i, j :: 0 <= i < j < n ==> s[i] < s[j]
    ensures forall k :: n - m <= k < n ==> s[k] <= k
  {
    if m > 0 {
      AtMost(s, n, m - 1);
      assert m > 1 ==> s[n - m] < s[n - m + 1];
    }
  }

  lemma OneEach(code: seq<Instruction>, cuts: seq<int>, blocks: seq<BasicBlock>, offsetToBlock: map<int, int>, k: nat)
    requires Tiles(code, cuts, blocks) && Locates(code, cuts, offsetToBlock)
    requires |cuts| == |code| && k < |code| && forall i :: 0 <= i < |code| ==> cuts[i] == i
    ensures blocks[k].start == code[k].offset && blocks[k].instructions == [code[k]]
    ensures code[k].offset in offsetToBlock && offsetToBlock[code[k].offset] == k
  {
    assert IsBlock(code, cuts, k, blocks[k]);
    assert code[k..k + 1] == [code[k]];
    assert InBlock(code, cuts, k, k);
    BlockUnique(code, cuts, k, k, BlockOf(code, cuts, k));
    LocatesAt(code, cuts, offsetToBlock, k);
  }

  // ---------- the graph of the crowded code ----------

  /** Block k is instruction k. */
  ghost predicate Plain(cfg: ControlFlowGraph)
    reads cfg.blocks
  {
    && |cfg.blocks| == 9
    && (forall k :: 0 <= k < 9 ==> cfg.blocks[k].start == 2 * k && cfg.blocks[k].instructions == [Crowded()[k]])
    && (forall k :: 0 <= k < 9 ==> 2 * k in cfg.offsetToBlock && cfg.offsetToBlock[2 * k] == k)
  }

  lemma CrowdedIsPlain(cfg: ControlFlowGraph)
    requires Built(Crowded(), Handlers(), cfg)
    ensures Plain(cfg)
  {
    hide Crowded, Handlers, Leader, LeaderCuts, Locates, Flagged, BlockEdge;
    var code, cuts := Crowded(), LeaderCuts(Crowded(), Handlers());
    forall i | 0 <= i < |code| ensures Leader(code, Handlers(), code[i].offset) {
      EachLeads(i);
    }
    AllCut(code, Handlers());
    assert |cfg.blocks| == |cuts|;
    hide Tiles;
    forall k | 0 <= k < 9
      ensures cfg.blocks[k].start == 2 * k && cfg.blocks[k].instructions == [code[k]]
      ensures 2 * k in cfg.offsetToBlock && cfg.offsetToBlock[2 * k] == k
    {
      OneEach(code, cuts, cfg.blocks, cfg.offsetToBlock, k);
      assert code[k].offset == 2 * k;
    }
  }

  lemma NormalEdges9(cfg: ControlFlowGraph, e: Edge)
    requires Plain(cfg)
    ensures 0 <= e.source < 9 && NormalEdge(cfg.blocks, cfg.offsetToBlock, e.source, e) <==>
              e == Edge(0, 8, IfTrue) || e == Edge(0, 1, IfFalse)
  {
    hide Crowded;
    if 0 <= e.source < 9 {
      assert LastOf(cfg.blocks[e.source]) == Crowded()[e.source];
      assert 2 * 8 in cfg.offsetToBlock;
    }
  }

  lemma ExceptionEdges9(cfg: ControlFlowGraph, e: Edge)
    requires Plain(cfg)
    ensures (exists r :: r in Handlers() && ExceptionEdge(cfg.blocks, r, cfg.offsetToBlock, e)) <==>
              1 <= e.source <= 6 && 1 <= e.target <= 7 && e.kind == Exception
  {
    hide Crowded, Handlers;
    var regions := Handlers();
    if 1 <= e.source <= 6 && 1 <= e.target <= 7 && e.kind == Exception {
      var r := regions[e.target - 1];
      assert 2 * e.target in cfg.offsetToBlock;
      assert r in regions && ExceptionEdge(cfg.blocks, r, cfg.offsetToBlock, e);
    }
    if r :| r in regions && ExceptionEdge(cfg.blocks, r, cfg.offsetToBlock, e) {
      var t :| 0 <= t < 7 && regions[t] == r;
      assert 2 * (t + 1) == r.target;
    }
  }

  /** Two normal edges leave the condition, and each raise has an exception edge to each handler. */
  ghost predicate Edges9(cfg: ControlFlowGraph) {
    forall e :: e in cfg.edges <==>
      || e == Edge(0, 8, IfTrue) || e == Edge(0, 1, IfFalse)
      || (1 <= e.source <= 6 && 1 <= e.target <= 7 && e.kind == Exception)
  }

  lemma CrowdedEdges(cfg: ControlFlowGraph)
    requires Built(Crowded(), Handlers(), cfg) && Plain(cfg)
    ensures Edges9(cfg)
  {
    hide Tiles, Locates, Flagged, NormalEdge, ExceptionEdge, Crowded, Handlers;
    forall e
      ensures e in cfg.edges <==>
              || e == Edge(0, 8, IfTrue) || e == Edge(0, 1, IfFalse)
              || (1 <= e.source <= 6 && 1 <= e.target <= 7 && e.kind == Exception)
    {
      NormalEdges9(cfg, e);
      ExceptionEdges9(cfg, e);
      assert e in cfg.edges <==> BlockEdge(cfg.blocks, Handlers(), cfg.offsetToBlock, e);
    }
  }

  // ---------- the interval passes every check ----------

  ghost function Seven(): (s: set<int>)
    ensures forall k :: k in s <==> 1 <= k <= 7
  {
    set k | k in Below(8) && k != 0
  }

  lemma SevenReached(cfg: ControlFlowGraph, k: int)
    requires Edges9(cfg) && 1 <= k <= 7
    ensures Reaches(Inside(cfg, Seven()), 1, k)
  {
    var e := Edge(1, k, Exception);
    assert e in cfg.edges;
    assert k in Graph(Seven(), cfg.edges, 0).Successors(1);
    ConnectsStep(Inside(cfg, Seven()), 1, k, {});
  }

  lemma SevenExits(cfg: ControlFlowGraph)
    requires cfg.WellFormed() && Plain(cfg) && Edges9(cfg)
    ensures ExitsTerminate(cfg, Seven())
  {
    hide Crowded, Seven, EdgesFrom, NormalOnly;
    forall k | 1 <= k <= 7 ensures cfg.LastKind(k) == if k <= 6 then RaiseVarargs else ReturnValue {
      assert LastOf(cfg.blocks[k]) == Crowded()[k];
    }
    forall k | 1 <= k <= 6 ensures !ExitBlock(cfg, Seven(), k) {
      assert Edge(k, 1, Exception) in cfg.edges;
    }
    assert ExitBlock(cfg, Seven(), 7);
    FirstListed(cfg.NormalFrom(7));
  }

  lemma FirstListed(edges: seq<Edge>)
    ensures edges != [] ==> edges[0] in edges
  {
  }

  lemma SevenAccepted(cfg: ControlFlowGraph)
    requires cfg.WellFormed() && Plain(cfg) && Edges9(cfg)
    ensures Accepted(cfg, Seven(), 1, {0})
  {
    hide Plain, Reaches, Inside, ExitsTerminate, Crowded;
    SevenExits(cfg);
    forall k | k in Seven() ensures Reaches(Inside(cfg, Seven()), 1, k) {
      SevenReached(cfg, k);
    }
    assert Edge(0, 1, IfFalse) in cfg.edges;
    Subset(Seven(), Seven());
  }

  // ---------- and needs more work than the limit ----------

  /** The count is at least the number of distinct edges known to be listed. */
  lemma {:induction false} CountAtLeast(edges: seq<Edge>, some: set<Edge>, sources: set<int>, targets: set<int>)
    requires forall e :: e in some ==> e in edges && e.source in sources && e.target in targets
    ensures |some| <= Count(edges, sources, targets)
  {
    if edges != [] {
      var e := edges[0];
      forall d | d in some - {e} ensures d in edges[1..] {
        assert d in edges;
      }
      CountAtLeast(edges[1..], some - {e}, sources, targets);
    }
  }

  /** The exceptions of block k to the first m handlers. */
  ghost function FromBlock(k: int, m: nat): (s: set<Edge>)
    ensures forall e :: e in s <==> e.source == k && 1 <= e.target <= m && e.kind == Exception
    ensures |s| == m
  {
    if m == 0 then {} else FromBlock(k, m - 1) + {Edge(k, m, Exception)}
  }

  /** The exceptions of the raises up to block n. */
  ghost function Exceptions(n: nat): (s: set<Edge>)
    ensures forall e :: e in s <==> 1 <= e.source <= n && 1 <= e.target <= 7 && e.kind == Exception
    ensures |s| == 7 * n
  {
    if n == 0 then {} else
      assert Exceptions(n - 1) !! FromBlock(n, 7);
      Exceptions(n - 1) + FromBlock(n, 7)
  }

  lemma SevenTooMuch(cfg: ControlFlowGraph)
    requires Edges9(cfg)
    ensures Work(cfg, Seven()) > WorkLimit(Seven())
  {
    hide Seven, Exceptions, Below, Count;
    CountAtLeast(cfg.edges, Exceptions(6), Seven(), Seven());
    Subset(Seven(), Below(8));
    SubsetSize(Seven(), Below(8));
    BelowSize(8);
  }

  /** In a graph that the block splitter builds, an interval passes every check and is still rejected. */
  method CrowdedRejected() returns (cfg: ControlFlowGraph, r: Option<set<Kind>>)
    ensures Built(Crowded(), Handlers(), cfg) && cfg.WellFormed()
    ensures Accepted(cfg, BlocksWithin(cfg, 2, 16), 1, {0})
    ensures Work(cfg, BlocksWithin(cfg, 2, 16)) > WorkLimit(BlocksWithin(cfg, 2, 16))
    ensures r == None
  {
    hide Crowded, Handlers, Built, Accepted, Work, WorkLimit, EndsTargeted, LeaderCuts;
    CrowdedBuilds();
    var built := BuildCfg(Crowded(), Handlers());
    cfg := built.cfg;
    BuiltWellFormed(Crowded(), Handlers(), cfg);
    CrowdedIsPlain(cfg);
    CrowdedEdges(cfg);
    SevenAccepted(cfg);
    SevenTooMuch(cfg);
    SevenWithin(cfg);
    r := TerminalIntervalExitKinds(Crowded(), cfg, 1, 8, {0});
  }

  lemma CrowdedBuilds()
    ensures Resolvable(Crowded(), Handlers()) && Targeted(Crowded())
  {
    hide Crowded, Handlers, Offsets;
    var code, regions := Crowded(), Handlers();
    forall i | 0 <= i < 9 ensures 2 * i in Offsets(code) {
      OffsetListed(code, i);
    }
    forall r | r in regions ensures r.start in Offsets(code) && r.target in Offsets(code) {
      var t :| 0 <= t < 7 && regions[t] == r;
      assert 2 * 1 in Offsets(code) && 2 * (t + 1) in Offsets(code);
    }
    assert 2 * 8 in Offsets(code);
  }

  lemma OffsetListed(code: seq<Instruction>, i: nat)
    requires i < |code|
    ensures code[i].offset in Offsets(code)
  {
  }

  lemma SevenWithin(cfg: ControlFlowGraph)
    requires Plain(cfg)
    ensures BlocksWithin(cfg, 2, 16) == Seven()
    ensures Crowded()[1].offset in cfg.offsetToBlock && cfg.offsetToBlock[Crowded()[1].offset] == 1
  {
    hide Crowded;
    forall k ensures k in BlocksWithin(cfg, 2, 16) <==> k in Seven() {
    }
    Extensional(BlocksWithin(cfg, 2, 16), Seven());
    assert Crowded()[1].offset == 2 * 1;
  }
}
