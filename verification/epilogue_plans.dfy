/** The conditions for an epilogue plan in terms of tokens, edges and runs. */
module EpiloguePlans {
  import opened Options
  import opened Graphs
  import opened Sets
  import opened Opcodes
  import opened ControlFlowGraphs
  import opened ImplicitReturns

  // ---------- the trailing pairs ----------

  /** A pair after which only ignored tokens come before `stop`. */
  ghost predicate PairEnds(tokens: seq<Instruction>, p: (int, int), stop: int) {
    IsPair(tokens, p) && p.1 < stop && forall i :: p.1 < i < stop && i < |tokens| ==> tokens[i].kind.Ignored?
  }

  /** Each pair ends where the next one begins, the last one at `stop`, and none ends where the first one begins. */
  ghost predicate Ends(tokens: seq<Instruction>, pairs: seq<(int, int)>, stop: int)
    decreases |pairs|
  {
    if pairs == [] then forall p: (int, int) :: !PairEnds(tokens, p, stop)
    else
      var last := pairs[|pairs| - 1];
      PairEnds(tokens, last, stop) && Ends(tokens, pairs[..|pairs| - 1], last.0)
  }

  function StopAt(tokens: seq<Instruction>, semantic: seq<int>, cursor: nat): int {
    if cursor < |semantic| then semantic[cursor] else |tokens|
  }

  lemma SemanticAt(tokens: seq<Instruction>, i: int) returns (k: nat)
    requires 0 <= i < |tokens| && !tokens[i].kind.Ignored?
    ensures k < |SemanticIndices(tokens, |tokens|)| && SemanticIndices(tokens, |tokens|)[k] == i
  {
    var semantic := SemanticIndices(tokens, |tokens|);
    assert i in semantic;
    k :| 0 <= k < |semantic| && semantic[k] == i;
  }

  lemma SemanticMembers(tokens: seq<Instruction>)
    ensures var semantic := SemanticIndices(tokens, |tokens|);
            && (forall k :: 0 <= k < |semantic| ==> 0 <= semantic[k] < |tokens| && !tokens[semantic[k]].kind.Ignored?)
            && (forall j, k :: 0 <= j < k < |semantic| ==> semantic[j] < semantic[k])
  {
    var semantic := SemanticIndices(tokens, |tokens|);
    forall k | 0 <= k < |semantic| ensures 0 <= semantic[k] < |tokens| && !tokens[semantic[k]].kind.Ignored? {
      assert semantic[k] in semantic;
    }
  }

  /** The one candidate for a pair that ends at a semantic token is the two tokens before it. */
  lemma EndingPair(tokens: seq<Instruction>, cursor: nat, p: (int, int))
    requires cursor <= |SemanticIndices(tokens, |tokens|)|
    ensures var semantic := SemanticIndices(tokens, |tokens|);
            PairEnds(tokens, p, StopAt(tokens, semantic, cursor)) <==>
              && cursor >= 2 && p == (semantic[cursor - 2], semantic[cursor - 1])
              && ReturnsNone(tokens, p.0, p.1)
  {
    hide SemanticIndices;
    var semantic := SemanticIndices(tokens, |tokens|);
    if PairEnds(tokens, p, StopAt(tokens, semantic, cursor)) {
      PairIsAdjacent(tokens, cursor, p);
    }
    if cursor >= 2 && p == (semantic[cursor - 2], semantic[cursor - 1]) && ReturnsNone(tokens, p.0, p.1) {
      AdjacentIsPair(tokens, semantic, cursor - 2);
      QuietAfter(tokens, cursor);
    }
  }

  lemma Neighbours(semantic: seq<int>, cursor: nat, i: int)
    requires forall a, b :: 0 <= a < b < |semantic| ==> semantic[a] < semantic[b]
    requires 0 < cursor <= |semantic| && i in semantic
    ensures i <= semantic[cursor - 1] || (cursor < |semantic| && semantic[cursor] <= i)
  {
    var k :| 0 <= k < |semantic| && semantic[k] == i;
    assert k <= cursor - 1 || cursor <= k;
  }

  lemma QuietAfter(tokens: seq<Instruction>, cursor: nat)
    requires 0 < cursor <= |SemanticIndices(tokens, |tokens|)|
    ensures var semantic := SemanticIndices(tokens, |tokens|);
            var stop := StopAt(tokens, semantic, cursor);
            && 0 <= semantic[cursor - 1] < stop <= |tokens|
            && forall i :: semantic[cursor - 1] < i < stop && i < |tokens| ==> tokens[i].kind.Ignored?
  {
    hide SemanticIndices;
    var semantic := SemanticIndices(tokens, |tokens|);
    var stop := StopAt(tokens, semantic, cursor);
    SemanticMembers(tokens);
    forall i | semantic[cursor - 1] < i < stop && i < |tokens| ensures tokens[i].kind.Ignored? {
      if i in semantic {
        Neighbours(semantic, cursor, i);
      }
    }
  }

  /** Either k is the position after j, or a semantic token lies strictly between. */
  lemma NextTo(semantic: seq<int>, j: nat, k: nat)
    requires j < k <= |semantic|
    requires forall a, b :: 0 <= a < b < |semantic| ==> semantic[a] < semantic[b]
    ensures k == j + 1 || (semantic[j] < semantic[j + 1] && (k < |semantic| ==> semantic[j + 1] < semantic[k]))
  {
  }

  lemma PairIsAdjacent(tokens: seq<Instruction>, cursor: nat, p: (int, int))
    requires cursor <= |SemanticIndices(tokens, |tokens|)|
    requires PairEnds(tokens, p, StopAt(tokens, SemanticIndices(tokens, |tokens|), cursor))
    ensures var semantic := SemanticIndices(tokens, |tokens|);
            cursor >= 2 && p == (semantic[cursor - 2], semantic[cursor - 1])
  {
    hide SemanticIndices;
    var semantic := SemanticIndices(tokens, |tokens|);
    SemanticMembers(tokens);
    var a := SemanticAt(tokens, p.0);
    var b := SemanticAt(tokens, p.1);
    assert a < b && b < cursor;
    NextTo(semantic, b, cursor);
    NextTo(semantic, a, b);
    assert b == cursor - 1 && a == b - 1;
  }

  lemma {:induction false} PairsEnd(tokens: seq<Instruction>, cursor: nat, pairs: seq<(int, int)>)
    requires cursor <= |SemanticIndices(tokens, |tokens|)|
    ensures var semantic := SemanticIndices(tokens, |tokens|);
            Ends(tokens, pairs, StopAt(tokens, semantic, cursor)) <==> pairs == PairsUpTo(tokens, semantic, cursor)
    decreases cursor
  {
    hide SemanticIndices, PairEnds, ReturnsNone;
    var semantic := SemanticIndices(tokens, |tokens|);
    PairsUpToStep(tokens, semantic, cursor);
    forall p: (int, int) ensures PairEnds(tokens, p, StopAt(tokens, semantic, cursor)) <==>
                       && cursor >= 2 && p == (semantic[cursor - 2], semantic[cursor - 1])
                       && ReturnsNone(tokens, p.0, p.1) {
      EndingPair(tokens, cursor, p);
    }
    if cursor >= 2 && ReturnsNone(tokens, semantic[cursor - 2], semantic[cursor - 1]) {
      var q := (semantic[cursor - 2], semantic[cursor - 1]);
      assert PairEnds(tokens, q, StopAt(tokens, semantic, cursor));
      if pairs != [] {
        PairsEnd(tokens, cursor - 2, pairs[..|pairs| - 1]);
        Snoc(pairs, PairsUpTo(tokens, semantic, cursor - 2), q);
      }
    }
  }

  lemma Snoc(pairs: seq<(int, int)>, front: seq<(int, int)>, q: (int, int))
    requires pairs != []
    ensures pairs == front + [q] <==> pairs[..|pairs| - 1] == front && pairs[|pairs| - 1] == q
  {
    assert pairs == pairs[..|pairs| - 1] + [pairs[|pairs| - 1]];
    assert (front + [q])[..|front|] == front;
  }

  /** The trailing pairs are the longest list of pairs that ends the stream. */
  lemma TrailingExact(tokens: seq<Instruction>, pairs: seq<(int, int)>)
    ensures Ends(tokens, pairs, |tokens|) <==> pairs == Trailing(tokens)
  {
    hide SemanticIndices, PairsUpTo, Ends;
    PairsEnd(tokens, |SemanticIndices(tokens, |tokens|)|, pairs);
  }

  // ---------- the region ----------

  /** A run from block u takes normal edges only and arrives at block k. */
  ghost predicate ReachedNormally(cfg: ControlFlowGraph, u: int, k: int) {
    exists p: seq<Edge> :: NormalRun(cfg, u, p) && Arrived(u, p) == k
  }

  ghost predicate NormalRun(cfg: ControlFlowGraph, u: int, p: seq<Edge>) {
    RunFrom(cfg, u, p) && forall i :: 0 <= i < |p| ==> p[i].kind != Exception
  }

  lemma ArcMeans(cfg: ControlFlowGraph, u: int, v: int)
    requires cfg.WellFormed()
    ensures Step(NormalArcs(cfg), u, v) <==>
              exists e :: e in cfg.edges && e.source == u && e.target == v && e.kind != Exception
  {
    if e :| e in cfg.edges && e.source == u && e.target == v && e.kind != Exception {
      assert e in NormalOnly(cfg.edges);
    }
    if Step(NormalArcs(cfg), u, v) {
      var e :| e in NormalOnly(cfg.edges) && e.source == u && e.target == v;
      assert e in cfg.edges;
    }
  }

  lemma NoRun(cfg: ControlFlowGraph, u: int)
    ensures RunFrom(cfg, u, [])
  {
  }

  lemma RunGoesOn(cfg: ControlFlowGraph, u: int, p: seq<Edge>, e: Edge)
    requires NormalRun(cfg, u, p) && e in cfg.edges && e.source == Arrived(u, p) && e.kind != Exception
    ensures NormalRun(cfg, u, p + [e]) && Arrived(u, p + [e]) == e.target
  {
  }

  lemma {:induction false} WalkIsNormalRun(cfg: ControlFlowGraph, q: seq<int>, u: int, k: int)
    requires cfg.WellFormed() && Walk(NormalArcs(cfg), q, u, k, {})
    ensures ReachedNormally(cfg, u, k)
    decreases |q|
  {
    hide NormalArcs, RunFrom;
    if |q| == 1 {
      NoRun(cfg, u);
      assert NormalRun(cfg, u, []) && Arrived(u, []) == k;
    } else {
      var m := q[|q| - 2];
      assert q[..|q| - 2 + 1] == q[..|q| - 1];
      WalkPrefix(NormalArcs(cfg), q, u, k, {}, |q| - 2);
      WalkIsNormalRun(cfg, q[..|q| - 1], u, m);
      assert Step(NormalArcs(cfg), q[|q| - 2], q[|q| - 2 + 1]);
      ArcMeans(cfg, m, k);
      var e :| e in cfg.edges && e.source == m && e.target == k && e.kind != Exception;
      var p: seq<Edge> :| NormalRun(cfg, u, p) && Arrived(u, p) == m;
      RunGoesOn(cfg, u, p, e);
    }
  }

  lemma {:induction false} NormalRunIsWalk(cfg: ControlFlowGraph, u: int, p: seq<Edge>)
    requires cfg.WellFormed() && NormalRun(cfg, u, p)
    ensures Reaches(NormalArcs(cfg), u, Arrived(u, p))
    decreases |p|
  {
    hide NormalArcs, RunFrom;
    if p == [] {
      ConnectsSelf(NormalArcs(cfg), u, {});
    } else {
      var e := p[|p| - 1];
      RunFront(cfg, u, p);
      NormalRunIsWalk(cfg, u, p[..|p| - 1]);
      ArcMeans(cfg, e.source, e.target);
      ConnectsStep(NormalArcs(cfg), e.source, e.target, {});
      ConnectsTrans(NormalArcs(cfg), u, e.source, e.target, {});
    }
  }

  /** The walked region is what runs along normal edges arrive at. */
  lemma RegionIsRuns(cfg: ControlFlowGraph, u: int, k: int)
    requires cfg.WellFormed() && 0 <= k < |cfg.blocks|
    ensures k in NormalRegion(cfg, u) <==> ReachedNormally(cfg, u, k)
  {
    hide NormalArcs, NormalRun;
    if k in NormalRegion(cfg, u) {
      var q :| Walk(NormalArcs(cfg), q, u, k, {});
      WalkIsNormalRun(cfg, q, u, k);
    }
    if p: seq<Edge> :| NormalRun(cfg, u, p) && Arrived(u, p) == k {
      NormalRunIsWalk(cfg, u, p);
    }
  }

  lemma NoNormalEdges(cfg: ControlFlowGraph, k: int)
    requires cfg.WellFormed()
    ensures cfg.NormalFrom(k) == [] <==> forall e :: e in cfg.edges && e.source == k ==> e.kind == Exception
  {
    forall e | e in cfg.edges && e.source == k && e.kind != Exception ensures e in cfg.NormalFrom(k) {
    }
    if cfg.NormalFrom(k) != [] {
      assert cfg.NormalFrom(k)[0] in cfg.NormalFrom(k);
    }
  }

  /** Both tokens of the pair are in block k, which returns and has only exception edges, if any. */
  ghost predicate Sits(tokens: seq<Instruction>, cfg: ControlFlowGraph, p: (int, int), k: int)
    requires Numbered(cfg.blocks)
  {
    && 0 <= p.0 < |tokens| && 0 <= p.1 < |tokens| && 0 <= k < |cfg.blocks|
    && (tokens[p.0].offset, k) in cfg.offsetToBlock.Items
    && (tokens[p.1].offset, k) in cfg.offsetToBlock.Items
    && LastOf(cfg.blocks[k]).kind == ReturnValue
    && forall e :: e in cfg.edges && e.source == k ==> e.kind == Exception
  }

  lemma SitsMeans(tokens: seq<Instruction>, cfg: ControlFlowGraph, p: (int, int), k: int)
    requires cfg.WellFormed()
    ensures Sits(tokens, cfg, p, k) <==> PairInBlock(tokens, cfg, p, k)
  {
    NoNormalEdges(cfg, k);
  }

  /** Every edge out of the reached blocks is normal and leads forward. */
  ghost predicate LeadsForward(cfg: ControlFlowGraph, entry: int)
    requires cfg.WellFormed()
  {
    forall e :: e in cfg.edges && ReachedNormally(cfg, entry, e.source) ==>
      e.kind != Exception && cfg.blocks[e.source].start < cfg.blocks[e.target].start
  }

  /** Every edge into the reached blocks is normal, and comes from them or leads forward to the entry. */
  ghost predicate EnteredForward(cfg: ControlFlowGraph, entry: int)
    requires cfg.WellFormed()
  {
    forall e :: e in cfg.edges && ReachedNormally(cfg, entry, e.target) ==>
      && e.kind != Exception
      && (ReachedNormally(cfg, entry, e.source)
          || (e.target == entry && cfg.blocks[e.source].start < cfg.blocks[e.target].start))
  }

  /** The blocks of the condition are reached, and runs end exactly in the blocks of the pairs. */
  ghost predicate EndsInPairs(tokens: seq<Instruction>, cfg: ControlFlowGraph, jumpOffsets: seq<int>, entry: int,
                              pairs: seq<(int, int)>)
    requires cfg.WellFormed()
  {
    && (forall o :: o in jumpOffsets ==>
          o in cfg.offsetToBlock && ReachedNormally(cfg, entry, cfg.offsetToBlock[o]))
    && (forall k :: 0 <= k < |cfg.blocks| ==>
          ((ReachedNormally(cfg, entry, k) && forall e :: e in cfg.edges && e.source == k ==> e.kind == Exception)
           <==> SomePairIn(tokens, cfg, pairs, k)))
  }

  ghost predicate SomePairIn(tokens: seq<Instruction>, cfg: ControlFlowGraph, pairs: seq<(int, int)>, k: int)
    requires Numbered(cfg.blocks)
  {
    exists i :: 0 <= i < |pairs| && Sits(tokens, cfg, pairs[i], k)
  }

  lemma SomePairMeans(tokens: seq<Instruction>, cfg: ControlFlowGraph, pairs: seq<(int, int)>, k: int)
    requires cfg.WellFormed()
    ensures SomePairIn(tokens, cfg, pairs, k) <==> InBlockOfPairs(tokens, cfg, pairs, k)
    ensures InBlockOfPairs(tokens, cfg, pairs, k) ==> 0 <= k < |cfg.blocks|
  {
    hide Sits, PairInBlock;
    forall p: (int, int) ensures Sits(tokens, cfg, p, k) <==> PairInBlock(tokens, cfg, p, k) {
      SitsMeans(tokens, cfg, p, k);
    }
    if SomePairIn(tokens, cfg, pairs, k) {
      var i :| 0 <= i < |pairs| && Sits(tokens, cfg, pairs[i], k);
      assert pairs[i] in pairs;
    }
    if InBlockOfPairs(tokens, cfg, pairs, k) {
      var p :| p in pairs && PairInBlock(tokens, cfg, p, k);
      PairBlockInRange(tokens, cfg, p, k);
    }
  }

  lemma PairBlockInRange(tokens: seq<Instruction>, cfg: ControlFlowGraph, p: (int, int), k: int)
    requires cfg.WellFormed() && PairInBlock(tokens, cfg, p, k)
    ensures 0 <= k < |cfg.blocks|
  {
  }

  lemma FitsMeans(tokens: seq<Instruction>, cfg: ControlFlowGraph, plan: ConditionPlan, pairs: seq<(int, int)>)
    requires cfg.WellFormed() && plan.entryOffset in cfg.offsetToBlock
    ensures var entry := cfg.offsetToBlock[plan.entryOffset];
            RegionFits(tokens, cfg, plan, pairs) <==>
              && LeadsForward(cfg, entry) && EnteredForward(cfg, entry)
              && EndsInPairs(tokens, cfg, plan.jumpOffsets, entry, pairs)
  {
    hide NormalRegion, ReachedNormally, InBlockOfPairs, SomePairIn;
    var entry := cfg.offsetToBlock[plan.entryOffset];
    var region := NormalRegion(cfg, entry);
    forall k | 0 <= k < |cfg.blocks| ensures k in region <==> ReachedNormally(cfg, entry, k) {
      RegionIsRuns(cfg, entry, k);
    }
    RegionMoves(cfg, entry);
    forall k ensures k in region && cfg.NormalFrom(k) == [] <==>
              && 0 <= k < |cfg.blocks| && ReachedNormally(cfg, entry, k)
              && forall e :: e in cfg.edges && e.source == k ==> e.kind == Exception {
      NoNormalEdges(cfg, k);
    }
    forall k
      ensures SomePairIn(tokens, cfg, pairs, k) <==> InBlockOfPairs(tokens, cfg, pairs, k)
      ensures InBlockOfPairs(tokens, cfg, pairs, k) ==> 0 <= k < |cfg.blocks|
    {
      SomePairMeans(tokens, cfg, pairs, k);
    }
  }

  lemma RegionMoves(cfg: ControlFlowGraph, entry: int)
    requires cfg.WellFormed() && 0 <= entry < |cfg.blocks|
    ensures Forward(cfg, NormalRegion(cfg, entry), []) && Isolated(cfg, NormalRegion(cfg, entry), entry) <==>
              LeadsForward(cfg, entry) && EnteredForward(cfg, entry)
  {
    hide NormalRegion, ReachedNormally;
    var region := NormalRegion(cfg, entry);
    forall k | 0 <= k < |cfg.blocks| ensures k in region <==> ReachedNormally(cfg, entry, k) {
      RegionIsRuns(cfg, entry, k);
    }
    forall e | e in cfg.edges && e.source in region && e.kind != Exception ensures e.target in region {
      NormalStep(cfg, entry, e);
    }
  }

  // ---------- when a plan is due, and what it says ----------

  /** Token i is the last one at offset o, and a block starts there. */
  predicate BlockHead(tokens: seq<Instruction>, cfg: ControlFlowGraph, o: int, i: int)
    requires cfg.WellFormed()
  {
    && 0 <= i < |tokens| && tokens[i].offset == o && (forall j :: i < j < |tokens| ==> tokens[j].offset != o)
    && o in cfg.offsetToBlock && cfg.blocks[cfg.offsetToBlock[o]].start == o
  }

  lemma BlockHeadMeans(tokens: seq<Instruction>, cfg: ControlFlowGraph, o: int, i: int)
    requires cfg.WellFormed()
    ensures BlockHead(tokens, cfg, o, i) <==> BeginsBlock(tokens, cfg, o) && IndexOf(tokens, o) == Some(i)
  {
  }

  /** There are two endpoints: `body` before the pairs, with a semantic token in between, the other one not before. */
  ghost predicate BodyPrecedes(tokens: seq<Instruction>, cfg: ControlFlowGraph, endpoints: set<int>, first: int,
                               body: int)
    requires cfg.WellFormed()
  {
    exists epilogue, i, j ::
      && (forall o :: o in endpoints <==> o == body || o == epilogue)
      && BlockHead(tokens, cfg, body, i) && BlockHead(tokens, cfg, epilogue, j)
      && i < first <= j
      && exists m :: i <= m < first && m < |tokens| && !tokens[m].kind.Ignored?
  }

  lemma BodyMeans(tokens: seq<Instruction>, cfg: ControlFlowGraph, plan: ConditionPlan, first: int, body: int)
    requires cfg.WellFormed()
    ensures SplitsAt(tokens, cfg, plan, first, body) && HasTokens(tokens, IndexOf(tokens, body).value, first) <==>
              BodyPrecedes(tokens, cfg, plan.endpoints, first, body)
  {
    hide IndexOf, BeginsBlock, BlockHead;
    forall o, i ensures BlockHead(tokens, cfg, o, i) <==>
              BeginsBlock(tokens, cfg, o) && IndexOf(tokens, o) == Some(i) {
      BlockHeadMeans(tokens, cfg, o, i);
    }
    forall o ensures BeginsBlock(tokens, cfg, o) ==> IndexOf(tokens, o).Some? {
      BeginsKnown(tokens, cfg, o);
    }
    if BodyPrecedes(tokens, cfg, plan.endpoints, first, body) {
      PrecedingSplits(tokens, cfg, plan, first, body);
    }
  }

  lemma BeginsKnown(tokens: seq<Instruction>, cfg: ControlFlowGraph, o: int)
    requires cfg.WellFormed()
    ensures BeginsBlock(tokens, cfg, o) ==> IndexOf(tokens, o).Some?
  {
  }

  lemma PrecedingSplits(tokens: seq<Instruction>, cfg: ControlFlowGraph, plan: ConditionPlan, first: int, body: int)
    requires cfg.WellFormed() && BodyPrecedes(tokens, cfg, plan.endpoints, first, body)
    ensures SplitsAt(tokens, cfg, plan, first, body) && HasTokens(tokens, IndexOf(tokens, body).value, first)
  {
    var epilogue, i, j :|
      && (forall o :: o in plan.endpoints <==> o == body || o == epilogue)
      && BlockHead(tokens, cfg, body, i) && BlockHead(tokens, cfg, epilogue, j)
      && i < first <= j
      && exists m :: 0 <= i <= m < first && m < |tokens| && !tokens[m].kind.Ignored?;
    hide IndexOf, BeginsBlock;
    BlockHeadMeans(tokens, cfg, body, i);
    BlockHeadMeans(tokens, cfg, epilogue, j);
  }

  ghost predicate Seated(tokens: seq<Instruction>, cfg: ControlFlowGraph, p: (int, int))
    requires Numbered(cfg.blocks)
  {
    exists k :: Sits(tokens, cfg, p, k)
  }

  ghost predicate Together(tokens: seq<Instruction>, cfg: ControlFlowGraph, p: (int, int), q: (int, int))
    requires Numbered(cfg.blocks)
  {
    exists k :: Sits(tokens, cfg, p, k) && Sits(tokens, cfg, q, k)
  }

  lemma SeatedMeans(tokens: seq<Instruction>, cfg: ControlFlowGraph, p: (int, int), q: (int, int))
    requires cfg.WellFormed()
    ensures Seated(tokens, cfg, p) <==> HasBlock(tokens, cfg, p)
    ensures Together(tokens, cfg, p, q) <==> SameBlock(tokens, cfg, p, q)
  {
    hide Sits, PairInBlock;
    forall k ensures Sits(tokens, cfg, p, k) <==> PairInBlock(tokens, cfg, p, k) {
      SitsMeans(tokens, cfg, p, k);
    }
    forall k ensures Sits(tokens, cfg, q, k) <==> PairInBlock(tokens, cfg, q, k) {
      SitsMeans(tokens, cfg, q, k);
    }
    if k :| Sits(tokens, cfg, p, k) {
      BlockOfPair(tokens, cfg, p, k);
    }
    if HasBlock(tokens, cfg, p) {
      assert Sits(tokens, cfg, p, cfg.offsetToBlock[tokens[p.0].offset]);
    }
  }

  /** Each pair is in a block of its own. */
  ghost predicate SitApart(tokens: seq<Instruction>, cfg: ControlFlowGraph, pairs: seq<(int, int)>)
    requires Numbered(cfg.blocks)
  {
    && (forall i :: 0 <= i < |pairs| ==> Seated(tokens, cfg, pairs[i]))
    && (forall i, j :: 0 <= i < j < |pairs| ==> !Together(tokens, cfg, pairs[i], pairs[j]))
  }

  lemma ApartMeans(tokens: seq<Instruction>, cfg: ControlFlowGraph, pairs: seq<(int, int)>)
    requires cfg.WellFormed()
    ensures SitApart(tokens, cfg, pairs) <==> PairsPlaced(tokens, cfg, pairs)
  {
    hide Seated, HasBlock, Together, SameBlock;
    forall i, j | 0 <= i < |pairs| && 0 <= j < |pairs|
      ensures Seated(tokens, cfg, pairs[i]) <==> HasBlock(tokens, cfg, pairs[i])
      ensures Together(tokens, cfg, pairs[i], pairs[j]) <==> SameBlock(tokens, cfg, pairs[i], pairs[j])
    {
      SeatedMeans(tokens, cfg, pairs[i], pairs[j]);
    }
  }

  /**
   When a plan is due, with the pairs that end the stream given: in a plain function body outside
   loops, at the end of the stream; the blocks that runs reach from the condition along normal
   edges are closed, entered and left only forward, and stop exactly at the pairs; and one
   endpoint precedes the pairs.
   */
  ghost predicate Due(context: CodeContext, tokens: seq<Instruction>, cfg: ControlFlowGraph, plan: ConditionPlan,
                      regionEnd: int, pairs: seq<(int, int)>, body: int)
    requires cfg.WellFormed()
  {
    && !context.insideLoop && !context.classBody && !context.moduleBody && !context.generatorFlags
    && regionEnd == |tokens| && 2 <= |pairs| && SitApart(tokens, cfg, pairs)
    && plan.jumpOffsets != [] && plan.entryOffset in cfg.offsetToBlock
    && (var entry := cfg.offsetToBlock[plan.entryOffset];
        && LeadsForward(cfg, entry) && EnteredForward(cfg, entry)
        && EndsInPairs(tokens, cfg, plan.jumpOffsets, entry, pairs))
    && BodyPrecedes(tokens, cfg, plan.endpoints, pairs[0].0, body)
  }

  lemma DueMeans(context: CodeContext, tokens: seq<Instruction>, cfg: ControlFlowGraph, plan: ConditionPlan,
                 regionEnd: int, pairs: seq<(int, int)>, body: int)
    requires cfg.WellFormed() && Ends(tokens, pairs, |tokens|)
    ensures Due(context, tokens, cfg, plan, regionEnd, pairs, body) <==>
              Acceptable(context, tokens, cfg, plan, regionEnd, body)
  {
    hide Ends, Trailing, RegionFits, SplitsAt, PairsPlaced, BodyPrecedes, SitApart, EndsInPairs, LeadsForward;
    hide EnteredForward, IndexOf, HasTokens;
    TrailingExact(tokens, pairs);
    ApartMeans(tokens, cfg, pairs);
    if plan.entryOffset in cfg.offsetToBlock {
      FitsMeans(tokens, cfg, plan, pairs);
    }
    if pairs != [] {
      BodyMeans(tokens, cfg, plan, pairs[0].0, body);
    }
  }

  /** Whether the emitted test holds, given the value of the plan's condition. */
  function Tests(r: EpiloguePlan, condition: bool): bool {
    if r.negated then !condition else condition
  }

  /**
   The emitted test holds exactly when the condition leads to the body, which begins before the
   owned pairs; otherwise the condition leads past the first of them.
   */
  lemma TestGuardsBody(context: CodeContext, tokens: seq<Instruction>, cfg: ControlFlowGraph, plan: ConditionPlan,
                       regionEnd: int, pairs: seq<(int, int)>, body: int, r: EpiloguePlan, condition: bool, taken: int)
    requires cfg.WellFormed() && Ends(tokens, pairs, |tokens|)
    requires Due(context, tokens, cfg, plan, regionEnd, pairs, body) && Describes(tokens, cfg, plan, body, r)
    requires plan.trueEndpoint in plan.endpoints && taken in plan.endpoints
    requires condition <==> taken == plan.trueEndpoint
    ensures exists i :: BlockHead(tokens, cfg, taken, i)
                        && if Tests(r, condition) then i == r.bodyStart && i < pairs[0].0 else pairs[0].0 <= i
  {
    hide Ends, BlockHead, IndexOf, SitApart, EndsInPairs, LeadsForward, EnteredForward, Trailing;
    var epilogue, i, j :|
      && (forall o :: o in plan.endpoints <==> o == body || o == epilogue)
      && BlockHead(tokens, cfg, body, i) && BlockHead(tokens, cfg, epilogue, j)
      && i < pairs[0].0 <= j;
    BlockHeadMeans(tokens, cfg, body, i);
    BlockHeadMeans(tokens, cfg, epilogue, j);
  }

  /** The pairs that end at `stop` are all that is there from the first one on. */
  lemma {:induction false} EndsCover(tokens: seq<Instruction>, pairs: seq<(int, int)>, stop: int)
    requires Ends(tokens, pairs, stop) && pairs != []
    ensures forall p :: p in pairs ==> IsPair(tokens, p) && pairs[0].0 <= p.0 && p.1 < stop
    ensures forall i :: 0 <= pairs[0].0 <= i < stop && i < |tokens| && !tokens[i].kind.Ignored? ==> InPairs(pairs, i)
    decreases |pairs|
  {
    var front, last := pairs[..|pairs| - 1], pairs[|pairs| - 1];
    assert pairs == front + [last];
    if front != [] {
      EndsCover(tokens, front, last.0);
    }
    forall i | 0 <= pairs[0].0 <= i < stop && i < |tokens| && !tokens[i].kind.Ignored? ensures InPairs(pairs, i) {
      if i < last.0 {
        assert InPairs(front, i);
        var p :| p in front && (i == p.0 || i == p.1);
        assert p in pairs;
      } else {
        assert last in pairs;
      }
    }
  }

  /** The owned offsets are those of the semantic tokens from the first pair on. */
  lemma OwnedMeans(tokens: seq<Instruction>, cfg: ControlFlowGraph, plan: ConditionPlan, pairs: seq<(int, int)>,
                   body: int, r: EpiloguePlan, o: int)
    requires cfg.WellFormed() && Ends(tokens, pairs, |tokens|) && pairs != []
    requires Describes(tokens, cfg, plan, body, r)
    ensures o in r.ownedOffsets <==>
              exists i :: pairs[0].0 <= i < |tokens| && 0 <= i && tokens[i].offset == o && !tokens[i].kind.Ignored?
  {
    hide Ends, Trailing, IndexOf;
    TrailingExact(tokens, pairs);
    EndsCover(tokens, pairs, |tokens|);
    assert pairs[0] in pairs;
  }
}
