/** The conditions for a loop's terminal frontier in terms of tokens, edges and runs. */
module FrontierSinks {
  import opened Options
  import opened Graphs
  import opened Sets
  import opened ExceptionTables
  import opened Opcodes
  import opened ControlFlowGraphs
  import opened TerminalIntervals
  import opened ImplicitReturns
  import opened LoopFrontiers

  // ---------- the tokens of a block ----------

  predicate Silent(tokens: seq<Instruction>, lo: int, hi: int) {
    forall i :: 0 <= lo <= i < hi && i < |tokens| ==> tokens[i].kind.Ignored?
  }

  predicate OnlyPops(tokens: seq<Instruction>, lo: int, hi: int) {
    forall i :: 0 <= lo <= i < hi && i < |tokens| ==> tokens[i].kind.Ignored? || tokens[i].kind.PopTop?
  }

  lemma {:induction false} SemanticSplit(tokens: seq<Instruction>, lo: int, m: int, hi: int)
    requires 0 <= lo <= m <= hi <= |tokens|
    ensures Semantic(tokens, lo, hi) == Semantic(tokens, lo, m) + Semantic(tokens, m, hi)
    decreases m - lo
  {
    if lo < m {
      SemanticSplit(tokens, lo + 1, m, hi);
    }
  }

  lemma {:induction false} SemanticSilent(tokens: seq<Instruction>, lo: int, hi: int)
    requires 0 <= lo <= |tokens| && hi <= |tokens|
    ensures Semantic(tokens, lo, hi) == [] <==> Silent(tokens, lo, hi)
    decreases hi - lo
  {
    if lo < hi {
      SemanticSilent(tokens, lo + 1, hi);
    }
  }

  lemma {:induction false} SemanticPops(tokens: seq<Instruction>, lo: int, hi: int)
    requires 0 <= lo <= |tokens| && hi <= |tokens| && OnlyPops(tokens, lo, hi)
    ensures PopsThen(Semantic(tokens, lo, hi), |Semantic(tokens, lo, hi)|)
    decreases hi - lo
  {
    if lo < hi {
      SemanticPops(tokens, lo + 1, hi);
    }
  }

  /** Where the first semantic token is. */
  lemma {:induction false} SemanticFirst(tokens: seq<Instruction>, lo: int, hi: int) returns (a: int)
    requires 0 <= lo <= |tokens| && hi <= |tokens| && Semantic(tokens, lo, hi) != []
    ensures lo <= a < hi && Silent(tokens, lo, a) && !tokens[a].kind.Ignored?
    ensures Semantic(tokens, lo, hi) == [tokens[a]] + Semantic(tokens, a + 1, hi)
    decreases hi - lo
  {
    if tokens[lo].kind.Ignored? {
      a := SemanticFirst(tokens, lo + 1, hi);
    } else {
      a := lo;
    }
  }

  /** Leading pops are leading tokens. */
  lemma {:induction false} SemanticAfterPops(tokens: seq<Instruction>, lo: int, hi: int, n: nat) returns (m: int)
    requires 0 <= lo <= |tokens| && hi <= |tokens| && lo <= hi && PopsThen(Semantic(tokens, lo, hi), n)
    ensures lo <= m <= hi && OnlyPops(tokens, lo, m)
    ensures Semantic(tokens, lo, hi)[n..] == Semantic(tokens, m, hi)
    decreases n
  {
    hide Semantic;
    if n == 0 {
      m := lo;
    } else {
      var semantic := Semantic(tokens, lo, hi);
      var a := SemanticFirst(tokens, lo, hi);
      assert semantic[1..] == Semantic(tokens, a + 1, hi);
      assert semantic[0].kind.PopTop?;
      m := SemanticAfterPops(tokens, a + 1, hi, n - 1);
      assert semantic[n..] == semantic[1..][n - 1..];
    }
  }

  /** Token a is the only one that is not ignored, but for pops before it. */
  predicate Alone(tokens: seq<Instruction>, lo: int, hi: int, a: int) {
    0 <= lo <= a < hi <= |tokens| && OnlyPops(tokens, lo, a) && !tokens[a].kind.Ignored? && Silent(tokens, a + 1, hi)
  }

  /** A load of a constant and a return are the only tokens that are not ignored, but for pops before them. */
  predicate Returning(tokens: seq<Instruction>, lo: int, hi: int, a: int, b: int) {
    && 0 <= lo <= a < b < hi <= |tokens|
    && OnlyPops(tokens, lo, a) && Silent(tokens, a + 1, b) && Silent(tokens, b + 1, hi)
    && tokens[a].kind.LoadConst? && tokens[b].kind.ReturnValue?
  }

  lemma AloneMeans(tokens: seq<Instruction>, lo: int, hi: int, n: nat) returns (a: int)
    requires 0 <= lo <= |tokens| && hi <= |tokens|
    requires PopsThen(Semantic(tokens, lo, hi), n) && n + 1 == |Semantic(tokens, lo, hi)|
    ensures Alone(tokens, lo, hi, a) && tokens[a] == Semantic(tokens, lo, hi)[n]
    ensures n == 0 ==> Silent(tokens, lo, a)
  {
    hide PopsThen, Semantic;
    SemanticSilent(tokens, lo, hi);
    assert !Silent(tokens, lo, hi);
    var semantic := Semantic(tokens, lo, hi);
    var m := SemanticAfterPops(tokens, lo, hi, n);
    if n == 0 {
      a := SemanticFirst(tokens, lo, hi);
      assert semantic[1..] == Semantic(tokens, a + 1, hi);
    } else {
      a := SemanticFirst(tokens, m, hi);
      assert semantic[n..][1..] == Semantic(tokens, a + 1, hi);
      assert semantic[n] == semantic[n..][0];
    }
    SemanticSilent(tokens, a + 1, hi);
  }

  lemma AloneIs(tokens: seq<Instruction>, lo: int, hi: int, a: int) returns (n: nat)
    requires Alone(tokens, lo, hi, a)
    ensures PopsThen(Semantic(tokens, lo, hi), n) && n + 1 == |Semantic(tokens, lo, hi)|
    ensures Semantic(tokens, lo, hi)[n] == tokens[a]
    ensures Silent(tokens, lo, a) ==> n == 0
  {
    SemanticSplit(tokens, lo, a, hi);
    SemanticPops(tokens, lo, a);
    SemanticSilent(tokens, lo, a);
    SemanticSilent(tokens, a + 1, hi);
    n := |Semantic(tokens, lo, a)|;
    assert Semantic(tokens, a, hi) == [tokens[a]];
    assert Semantic(tokens, lo, hi) == Semantic(tokens, lo, a) + [tokens[a]];
  }

  lemma ReturningMeans(tokens: seq<Instruction>, lo: int, hi: int, n: nat) returns (a: int, b: int)
    requires 0 <= lo <= |tokens| && hi <= |tokens|
    requires PopsThen(Semantic(tokens, lo, hi), n) && n + 2 == |Semantic(tokens, lo, hi)|
    requires Semantic(tokens, lo, hi)[n].kind.LoadConst? && Semantic(tokens, lo, hi)[n + 1].kind.ReturnValue?
    ensures Returning(tokens, lo, hi, a, b)
  {
    hide PopsThen, Semantic;
    SemanticSilent(tokens, lo, hi);
    assert !Silent(tokens, lo, hi);
    var semantic := Semantic(tokens, lo, hi);
    var m := SemanticAfterPops(tokens, lo, hi, n);
    a := SemanticFirst(tokens, m, hi);
    assert semantic[n..][1..] == Semantic(tokens, a + 1, hi);
    assert semantic[n] == semantic[n..][0];
    b := SemanticFirst(tokens, a + 1, hi);
    assert semantic[n + 1] == semantic[n..][1..][0];
    assert semantic[n..][1..][1..] == Semantic(tokens, b + 1, hi);
    SemanticSilent(tokens, b + 1, hi);
  }

  lemma ReturningIs(tokens: seq<Instruction>, lo: int, hi: int, a: int, b: int) returns (n: nat)
    requires Returning(tokens, lo, hi, a, b)
    ensures PopsThen(Semantic(tokens, lo, hi), n) && n + 2 == |Semantic(tokens, lo, hi)|
    ensures Semantic(tokens, lo, hi)[n].kind.LoadConst? && Semantic(tokens, lo, hi)[n + 1].kind.ReturnValue?
  {
    hide Semantic, OnlyPops, Silent;
    SemanticSplit(tokens, lo, a, hi);
    SemanticPops(tokens, lo, a);
    SemanticNext(tokens, a, hi);
    SemanticSplit(tokens, a + 1, b, hi);
    SemanticSilent(tokens, a + 1, b);
    SemanticNext(tokens, b, hi);
    SemanticSilent(tokens, b + 1, hi);
    n := |Semantic(tokens, lo, a)|;
    assert Semantic(tokens, lo, hi) == Semantic(tokens, lo, a) + [tokens[a], tokens[b]];
  }

  lemma SemanticNext(tokens: seq<Instruction>, a: int, hi: int)
    requires 0 <= a < hi <= |tokens| && !tokens[a].kind.Ignored?
    ensures Semantic(tokens, a, hi) == [tokens[a]] + Semantic(tokens, a + 1, hi)
  {
  }

  // ---------- the three sorts of sink ----------

  /** The tokens from index lo to index hi are those of the block; both ends are the last tokens at their offsets. */
  predicate Spans(tokens: seq<Instruction>, b: BasicBlock, lo: int, hi: int) {
    && 0 <= lo < |tokens| && tokens[lo].offset == b.start
    && (forall j :: lo < j < |tokens| ==> tokens[j].offset != b.start)
    && 0 <= hi < |tokens| && tokens[hi].offset == b.end
    && (forall j :: hi < j < |tokens| ==> tokens[j].offset != b.end)
  }

  lemma SpansMeans(tokens: seq<Instruction>, b: BasicBlock, lo: int, hi: int)
    ensures Spans(tokens, b, lo, hi) <==> IndexOf(tokens, b.start) == Some(lo) && IndexOf(tokens, b.end) == Some(hi)
    ensures Spans(tokens, b, lo, hi) ==> BlockTokens(tokens, b) == Some(Semantic(tokens, lo, hi))
  {
    hide Semantic;
  }

  /** The block has exactly one outgoing edge, to the block that starts at o. */
  ghost predicate GoesTo(cfg: ControlFlowGraph, k: int, o: int)
    requires cfg.WellFormed()
  {
    exists e :: cfg.NormalFrom(k) == [e] && e in cfg.edges && cfg.blocks[e.target].start == o
  }

  ghost predicate ContinuesAt(tokens: seq<Instruction>, cfg: ControlFlowGraph, k: int, loop: LoopContext, lo: int,
                              hi: int, a: int)
    requires cfg.WellFormed() && 0 <= k < |cfg.blocks|
  {
    && Alone(tokens, lo, hi, a) && Silent(tokens, lo, a) && LastOf(cfg.blocks[k]).kind == tokens[a].kind
    && (tokens[a].kind == JumpBackward || tokens[a].kind == JumpBackwardNoInterrupt)
    && exists o :: o in loop.continueTargets && InstructionTarget(tokens[a]) == Some(o) && GoesTo(cfg, k, o)
  }

  ghost predicate BreaksAt(tokens: seq<Instruction>, cfg: ControlFlowGraph, k: int, loop: LoopContext, lo: int,
                           hi: int, a: int)
    requires cfg.WellFormed() && 0 <= k < |cfg.blocks|
  {
    && Alone(tokens, lo, hi, a) && LastOf(cfg.blocks[k]).kind == JumpForward && tokens[a].kind == JumpForward
    && InstructionTarget(tokens[a]) == Some(loop.breakTarget) && GoesTo(cfg, k, loop.breakTarget)
  }

  /** Block k spans tokens of the given sort, and its edges agree with them. */
  ghost predicate Sinks(tokens: seq<Instruction>, cfg: ControlFlowGraph, k: int, loop: LoopContext, sink: Sink)
    requires cfg.WellFormed() && 0 <= k < |cfg.blocks|
  {
    && (forall e :: e in cfg.edges && (e.source == k || e.target == k) ==> e.kind != Exception)
    && exists lo, hi :: Spans(tokens, cfg.blocks[k], lo, hi) && SpanSinks(tokens, cfg, k, loop, sink, lo, hi)
  }

  ghost predicate SpanSinks(tokens: seq<Instruction>, cfg: ControlFlowGraph, k: int, loop: LoopContext, sink: Sink,
                            lo: int, hi: int)
    requires cfg.WellFormed() && 0 <= k < |cfg.blocks|
  {
    match sink
    case Returns =>
      && LastOf(cfg.blocks[k]).kind == ReturnValue && (forall e :: e in cfg.edges ==> e.source != k)
      && exists a, b :: Returning(tokens, lo, hi, a, b)
    case Continues => exists a :: ContinuesAt(tokens, cfg, k, loop, lo, hi, a)
    case Breaks => exists a :: BreaksAt(tokens, cfg, k, loop, lo, hi, a)
  }

  // ---------- the sorts, one by one ----------

  lemma ReturnMeans(tokens: seq<Instruction>, cfg: ControlFlowGraph, k: int, loop: LoopContext, lo: int, hi: int)
    requires cfg.WellFormed() && 0 <= k < |cfg.blocks| && 0 <= lo <= |tokens| && hi <= |tokens|
    requires forall e :: e in cfg.edges && (e.source == k || e.target == k) ==> e.kind != Exception
    ensures SpanSinks(tokens, cfg, k, loop, Returns, lo, hi) <==>
              exists n: nat :: PopsThen(Semantic(tokens, lo, hi), n) && ReturnShape(cfg, k, Semantic(tokens, lo, hi), n)
  {
    hide Semantic, PopsThen, Returning;
    NoEdges(cfg, k);
    if n: nat :| PopsThen(Semantic(tokens, lo, hi), n) && ReturnShape(cfg, k, Semantic(tokens, lo, hi), n) {
      var a, b := ReturningMeans(tokens, lo, hi, n);
    }
    if a, b :| Returning(tokens, lo, hi, a, b) {
      var n := ReturningIs(tokens, lo, hi, a, b);
    }
  }

  lemma NoEdges(cfg: ControlFlowGraph, k: int)
    requires cfg.WellFormed()
    requires forall e :: e in cfg.edges && e.source == k ==> e.kind != Exception
    ensures cfg.NormalFrom(k) == [] <==> forall e :: e in cfg.edges ==> e.source != k
  {
    forall e | e in cfg.edges && e.source == k ensures e in cfg.NormalFrom(k) {
    }
    if cfg.NormalFrom(k) != [] {
      assert cfg.NormalFrom(k)[0] in cfg.NormalFrom(k);
    }
  }

  lemma TargetMeans(cfg: ControlFlowGraph, k: int, o: int)
    requires cfg.WellFormed() && 0 <= k < |cfg.blocks|
    ensures GoesTo(cfg, k, o) <==> SoleTarget(cfg, k, o)
  {
    if SoleTarget(cfg, k, o) {
      assert cfg.NormalFrom(k)[0] in cfg.NormalFrom(k);
      assert cfg.NormalFrom(k) == [cfg.NormalFrom(k)[0]];
    }
  }

  lemma ContinueMeans(tokens: seq<Instruction>, cfg: ControlFlowGraph, k: int, loop: LoopContext, lo: int, hi: int)
    requires cfg.WellFormed() && 0 <= k < |cfg.blocks| && 0 <= lo <= |tokens| && hi <= |tokens|
    ensures SpanSinks(tokens, cfg, k, loop, Continues, lo, hi) <==>
              ContinueShape(cfg, k, Semantic(tokens, lo, hi), loop)
  {
    hide Semantic, SoleTarget, GoesTo, OnlyPops;
    forall o ensures GoesTo(cfg, k, o) <==> SoleTarget(cfg, k, o) {
      TargetMeans(cfg, k, o);
    }
    if ContinueShape(cfg, k, Semantic(tokens, lo, hi), loop) {
      var a := AloneMeans(tokens, lo, hi, 0);
      assert ContinuesAt(tokens, cfg, k, loop, lo, hi, a);
    }
    if a :| ContinuesAt(tokens, cfg, k, loop, lo, hi, a) {
      var n := AloneIs(tokens, lo, hi, a);
    }
  }

  lemma BreakMeans(tokens: seq<Instruction>, cfg: ControlFlowGraph, k: int, loop: LoopContext, lo: int, hi: int)
    requires cfg.WellFormed() && 0 <= k < |cfg.blocks| && 0 <= lo <= |tokens| && hi <= |tokens|
    ensures SpanSinks(tokens, cfg, k, loop, Breaks, lo, hi) <==>
              exists n: nat ::
                PopsThen(Semantic(tokens, lo, hi), n) && BreakShape(cfg, k, Semantic(tokens, lo, hi), n, loop)
  {
    hide Semantic, PopsThen, SoleTarget, GoesTo, OnlyPops;
    TargetMeans(cfg, k, loop.breakTarget);
    if n: nat :| PopsThen(Semantic(tokens, lo, hi), n) && BreakShape(cfg, k, Semantic(tokens, lo, hi), n, loop) {
      var a := AloneMeans(tokens, lo, hi, n);
      assert BreaksAt(tokens, cfg, k, loop, lo, hi, a);
    }
    if a :| BreaksAt(tokens, cfg, k, loop, lo, hi, a) {
      var n := AloneIs(tokens, lo, hi, a);
      assert BreakShape(cfg, k, Semantic(tokens, lo, hi), n, loop);
    }
  }

  /** A gap block is a sink of a sort exactly when its tokens and edges are of that sort. */
  lemma SinkMeans(tokens: seq<Instruction>, cfg: ControlFlowGraph, k: int, loop: LoopContext, sink: Sink)
    requires cfg.WellFormed() && 0 <= k < |cfg.blocks|
    ensures Sinks(tokens, cfg, k, loop, sink) <==> IsSink(tokens, cfg, k, loop, sink)
  {
    hide SpanSinks, ReturnShape, ContinueShape, BreakShape, IndexOf, Semantic, PopsThen, Spans;
    var b := cfg.blocks[k];
    forall lo, hi ensures Spans(tokens, b, lo, hi) <==>
              IndexOf(tokens, b.start) == Some(lo) && IndexOf(tokens, b.end) == Some(hi) {
      SpansMeans(tokens, b, lo, hi);
    }
    if NoExceptionEdges(cfg, k) && BlockTokens(tokens, b).Some? {
      var lo, hi := IndexOf(tokens, b.start).value, IndexOf(tokens, b.end).value;
      SpansMeans(tokens, b, lo, hi);
      InTokens(tokens, b, lo, hi);
      ReturnMeans(tokens, cfg, k, loop, lo, hi);
      ContinueMeans(tokens, cfg, k, loop, lo, hi);
      BreakMeans(tokens, cfg, k, loop, lo, hi);
    }
  }

  lemma InTokens(tokens: seq<Instruction>, b: BasicBlock, lo: int, hi: int)
    requires Spans(tokens, b, lo, hi)
    ensures 0 <= lo < |tokens| && 0 <= hi < |tokens|
  {
  }

  // ---------- ownership ----------

  /** Block k starts inside a protected fragment. */
  ghost predicate InBody(cfg: ControlFlowGraph, fragments: seq<Region>, k: int) {
    0 <= k < |cfg.blocks| && exists i ::
      0 <= i < |fragments| && fragments[i].start <= cfg.blocks[k].start < fragments[i].end
  }

  /** p leaves the protected body on a normal edge and stays in the gap from there on. */
  ghost predicate Enters(cfg: ControlFlowGraph, fragments: seq<Region>, gap: set<int>, p: seq<Edge>) {
    && p != [] && Follows(cfg, p) && InBody(cfg, fragments, p[0].source) && p[0].kind != Exception
    && forall i :: 0 <= i < |p| ==> p[i].target in gap
  }

  ghost predicate EnteredRun(cfg: ControlFlowGraph, fragments: seq<Region>, gap: set<int>, k: int) {
    exists p: seq<Edge> :: Enters(cfg, fragments, gap, p) && p[|p| - 1].target == k
  }

  /** Normal edges into the gap come from the gap or the body, and runs from the body enter all of it. */
  ghost predicate OwnedByBody(cfg: ControlFlowGraph, fragments: seq<Region>, gap: set<int>) {
    && (forall e :: e in cfg.edges && e.target in gap && e.kind != Exception ==>
          e.source in gap || InBody(cfg, fragments, e.source))
    && (forall k :: k in gap ==> EnteredRun(cfg, fragments, gap, k))
  }

  lemma BodyMeans(cfg: ControlFlowGraph, fragments: seq<Region>, k: int)
    ensures InBody(cfg, fragments, k) <==> k in ProtectedBlocks(cfg, fragments)
  {
    if 0 <= k < |cfg.blocks| && InFragments(fragments, cfg.blocks[k].start) {
      var f :| f in fragments && f.start <= cfg.blocks[k].start < f.end;
      var i :| 0 <= i < |fragments| && fragments[i] == f;
    }
  }

  lemma EnteredMeans(cfg: ControlFlowGraph, fragments: seq<Region>, gap: set<int>, k: int)
    requires k in gap
    ensures EnteredRun(cfg, fragments, gap, k) <==>
              EnteredFrom(cfg, gap, EntryBlocks(cfg, gap, ProtectedBlocks(cfg, fragments)), k)
  {
    hide Inside, Reaches, InBody, ProtectedBlocks;
    var protected := ProtectedBlocks(cfg, fragments);
    var entries := EntryBlocks(cfg, gap, protected);
    forall b ensures InBody(cfg, fragments, b) <==> b in protected {
      BodyMeans(cfg, fragments, b);
    }
    if p: seq<Edge> :| Enters(cfg, fragments, gap, p) && p[|p| - 1].target == k {
      var u := p[0].target;
      assert p[0] in cfg.edges && u in entries;
      RunAfterEntry(cfg, gap, p);
      InsideMeansRuns(cfg, gap, u, k);
    }
    if u :| u in entries && Reaches(Inside(cfg, gap), u, k) {
      InsideMeansRuns(cfg, gap, u, k);
      var e :| e in cfg.edges && e.target == u && !e.kind.Exception? && e.source in protected;
      var p := EntryThenRun(cfg, gap, e, k);
      assert Enters(cfg, fragments, gap, p);
    }
  }

  lemma RunAfterEntry(cfg: ControlFlowGraph, gap: set<int>, p: seq<Edge>)
    requires p != [] && Follows(cfg, p) && forall i :: 0 <= i < |p| ==> p[i].target in gap
    ensures ReachedInside(cfg, gap, p[0].target, p[|p| - 1].target)
  {
    var rest := p[1..];
    forall i | 0 <= i < |rest| ensures rest[i].source in gap && rest[i].target in gap && rest[i] in cfg.edges {
      assert p[i].target == p[i + 1].source;
    }
    if rest != [] {
      assert RunsInside(cfg, gap, p[0].target, rest);
    }
  }

  lemma EntryThenRun(cfg: ControlFlowGraph, gap: set<int>, e: Edge, k: int) returns (p: seq<Edge>)
    requires e in cfg.edges && e.target in gap && ReachedInside(cfg, gap, e.target, k)
    ensures p != [] && p[0] == e && Follows(cfg, p) && p[|p| - 1].target == k
    ensures forall i :: 0 <= i < |p| ==> p[i].target in gap
  {
    if e.target == k {
      p := [e];
    } else {
      var rest: seq<Edge> :| RunsInside(cfg, gap, e.target, rest) && rest != [] && rest[|rest| - 1].target == k;
      p := [e] + rest;
    }
  }

  lemma OwnedMeans(cfg: ControlFlowGraph, fragments: seq<Region>, gap: set<int>)
    requires Narrow(cfg, gap)
    ensures OwnedByBody(cfg, fragments, gap) <==> OwnedGap(cfg, fragments, gap)
  {
    hide EnteredRun, EnteredFrom, InBody;
    forall b ensures InBody(cfg, fragments, b) <==> b in ProtectedBlocks(cfg, fragments) {
      BodyMeans(cfg, fragments, b);
    }
    forall k | k in gap
      ensures EnteredRun(cfg, fragments, gap, k) <==>
                EnteredFrom(cfg, gap, EntryBlocks(cfg, gap, ProtectedBlocks(cfg, fragments)), k)
      ensures EnteredRun(cfg, fragments, gap, k) ==> NormalOnly(EdgesInto(cfg.edges, k)) != []
    {
      EnteredMeans(cfg, fragments, gap, k);
      EnteredHasEdge(cfg, fragments, gap, k);
    }
  }

  lemma EnteredHasEdge(cfg: ControlFlowGraph, fragments: seq<Region>, gap: set<int>, k: int)
    requires Narrow(cfg, gap) && k in gap
    ensures EnteredRun(cfg, fragments, gap, k) ==> NormalOnly(EdgesInto(cfg.edges, k)) != []
  {
    if p: seq<Edge> :| Enters(cfg, fragments, gap, p) && p[|p| - 1].target == k {
      var e := p[|p| - 1];
      assert e in cfg.edges && !e.kind.Exception?;
      assert e in NormalOnly(EdgesInto(cfg.edges, k));
    }
  }

  // ---------- when a frontier is due ----------

  /** Block k starts between the two offsets. */
  predicate Between(cfg: ControlFlowGraph, lower: int, upper: int, k: int) {
    0 <= k < |cfg.blocks| && lower <= cfg.blocks[k].start < upper
  }

  /**
   A block starts right after the protected body, and the blocks from there to the handler, one
   at least, end before it, are sinks, and are owned by the body.
   */
  ghost predicate FrontierDue(tokens: seq<Instruction>, cfg: ControlFlowGraph, fragments: seq<Region>,
                              loop: LoopContext, lower: int, upper: int, gap: set<int>)
    requires cfg.WellFormed()
  {
    && lower in cfg.offsetToBlock && cfg.blocks[cfg.offsetToBlock[lower]].start == lower
    && (forall k :: k in gap <==> Between(cfg, lower, upper, k))
    && (exists k :: k in gap)
    && (forall k :: k in gap && 0 <= k < |cfg.blocks| ==>
          cfg.blocks[k].end <= upper && exists sink :: Sinks(tokens, cfg, k, loop, sink))
    && OwnedByBody(cfg, fragments, gap)
  }

  /** The checks on the gap are exactly these. */
  lemma DueMeans(tokens: seq<Instruction>, cfg: ControlFlowGraph, fragments: seq<Region>, loop: LoopContext,
                 bodyEnd: nat, handlerIndex: nat, gap: set<int>)
    requires cfg.WellFormed() && bodyEnd < handlerIndex < |tokens|
    requires gap == LoopFrontiers.Gap(tokens, cfg, bodyEnd, handlerIndex)
    ensures FrontierDue(tokens, cfg, fragments, loop, tokens[bodyEnd].offset, tokens[handlerIndex].offset, gap) <==>
              && GapFits(tokens, cfg, bodyEnd, handlerIndex)
              && AllSinks(tokens, cfg, loop, gap) && OwnedGap(cfg, fragments, gap)
  {
    hide Sinks, IsSink, OwnedByBody, OwnedGap, Narrow;
    var due := FrontierDue(tokens, cfg, fragments, loop, tokens[bodyEnd].offset, tokens[handlerIndex].offset, gap);
    forall k | k in gap ensures IsSomeSink(tokens, cfg, k, loop) <==> exists sink :: Sinks(tokens, cfg, k, loop, sink) {
      forall sink ensures Sinks(tokens, cfg, k, loop, sink) <==> IsSink(tokens, cfg, k, loop, sink) {
        SinkMeans(tokens, cfg, k, loop, sink);
      }
    }
    if AllSinks(tokens, cfg, loop, gap) {
      SinksNarrow(tokens, cfg, loop, gap);
      OwnedMeans(cfg, fragments, gap);
    }
    SomeMember(gap);
  }

  lemma SomeMember(s: set<int>)
    ensures s != {} <==> exists k :: k in s
  {
    if s != {} {
      var k := Pick(s);
    }
  }

  /** Token i is a POP_TOP of the block with only ignored tokens and other pops before it. */
  predicate PopsAt(tokens: seq<Instruction>, lo: int, hi: int, i: int) {
    0 <= lo <= i < hi <= |tokens| && OnlyPops(tokens, lo, i) && tokens[i].kind.PopTop?
  }

  /** The block has a leading POP_TOP at offset o. */
  ghost predicate PopsOffset(tokens: seq<Instruction>, b: BasicBlock, o: int) {
    exists lo, hi, i :: Spans(tokens, b, lo, hi) && PopsAt(tokens, lo, hi, i) && tokens[i].offset == o
  }

  lemma PopsMean(tokens: seq<Instruction>, lo: int, hi: int, o: int)
    requires 0 <= lo <= |tokens| && hi <= |tokens|
    ensures LeadingPop(Semantic(tokens, lo, hi), o) <==>
              exists i :: PopsAt(tokens, lo, hi, i) && tokens[i].offset == o
  {
    hide Semantic, PopsThen;
    var semantic := Semantic(tokens, lo, hi);
    if j: nat :| j < |semantic| && PopsThen(semantic, j + 1) && semantic[j].offset == o {
      var a := PopToken(tokens, lo, hi, j);
      assert PopsAt(tokens, lo, hi, a);
    }
    if i :| PopsAt(tokens, lo, hi, i) && tokens[i].offset == o {
      PopIsLeading(tokens, lo, hi, i);
    }
  }

  lemma PopToken(tokens: seq<Instruction>, lo: int, hi: int, j: nat) returns (a: int)
    requires 0 <= lo <= |tokens| && hi <= |tokens|
    requires j < |Semantic(tokens, lo, hi)| && PopsThen(Semantic(tokens, lo, hi), j + 1)
    ensures PopsAt(tokens, lo, hi, a) && tokens[a] == Semantic(tokens, lo, hi)[j]
  {
    hide Semantic;
    SemanticSilent(tokens, lo, hi);
    assert !Silent(tokens, lo, hi);
    var m := SemanticAfterPops(tokens, lo, hi, j);
    a := SemanticFirst(tokens, m, hi);
    assert Semantic(tokens, lo, hi)[j] == Semantic(tokens, lo, hi)[j..][0];
  }

  lemma PopIsLeading(tokens: seq<Instruction>, lo: int, hi: int, i: int)
    requires PopsAt(tokens, lo, hi, i)
    ensures LeadingPop(Semantic(tokens, lo, hi), tokens[i].offset)
  {
    SemanticSplit(tokens, lo, i, hi);
    SemanticPops(tokens, lo, i);
    var j: nat := |Semantic(tokens, lo, i)|;
    var semantic := Semantic(tokens, lo, hi);
    assert Semantic(tokens, i, hi) == [tokens[i]] + Semantic(tokens, i + 1, hi);
    assert PopsThen(semantic, j + 1);
    assert semantic[j] == tokens[i];
  }

  /** What a returned frontier lists: the gap by sort, and the offsets of its leading pops. */
  lemma FrontierSays(tokens: seq<Instruction>, cfg: ControlFlowGraph, fragments: seq<Region>, loop: LoopContext,
                     gap: set<int>, f: Frontier)
    requires cfg.WellFormed() && Owned(tokens, cfg, fragments, loop, gap, f)
    ensures f.ownedBlocks == gap && forall k :: k in gap ==> 0 <= k < |cfg.blocks|
    ensures forall k :: k in f.returnBlocks <==> k in gap && Sinks(tokens, cfg, k, loop, Returns)
    ensures forall k :: k in f.continueBlocks <==> k in gap && Sinks(tokens, cfg, k, loop, Continues)
    ensures forall k :: k in f.breakBlocks <==> k in gap && Sinks(tokens, cfg, k, loop, Breaks)
    ensures forall o :: o in f.cleanupOffsets <==>
              exists k :: k in gap && 0 <= k < |cfg.blocks| && PopsOffset(tokens, cfg.blocks[k], o)
  {
    hide Sinks, IsSink, AllSinks, OwnedGap, CleanupOf, PopsOffset;
    forall k, sink | k in gap ensures Sinks(tokens, cfg, k, loop, sink) <==> IsSink(tokens, cfg, k, loop, sink) {
      SinkMeans(tokens, cfg, k, loop, sink);
    }
    forall k, o | k in gap
      ensures CleanupOf(tokens, cfg, k, o) <==> PopsOffset(tokens, cfg.blocks[k], o)
    {
      CleanupMeans(tokens, cfg, k, o);
    }
  }

  lemma CleanupMeans(tokens: seq<Instruction>, cfg: ControlFlowGraph, k: int, o: int)
    requires cfg.WellFormed() && 0 <= k < |cfg.blocks|
    ensures CleanupOf(tokens, cfg, k, o) <==> PopsOffset(tokens, cfg.blocks[k], o)
  {
    hide Spans, Semantic, LeadingPop, IndexOf, OnlyPops;
    var b := cfg.blocks[k];
    forall lo, hi ensures Spans(tokens, b, lo, hi) <==>
              IndexOf(tokens, b.start) == Some(lo) && IndexOf(tokens, b.end) == Some(hi) {
      SpansMeans(tokens, b, lo, hi);
    }
    if BlockTokens(tokens, b).Some? {
      var lo, hi := IndexOf(tokens, b.start).value, IndexOf(tokens, b.end).value;
      InTokens(tokens, b, lo, hi);
      PopsMean(tokens, lo, hi, o);
    }
  }
}
