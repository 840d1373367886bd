/** Proving that duplicated trailing `return None` pairs are one fall-through of a condition. */
module ImplicitReturns {
  import opened Options
  import opened Graphs
  import opened Sets
  import opened ExceptionTables
  import opened Opcodes
  import opened ControlFlowGraphs

  /** What the surrounding code object says. */
  datatype CodeContext = CodeContext(insideLoop: bool, classBody: bool, moduleBody: bool, generatorFlags: bool)

  /** The condition a plan starts from: its entry, its jumps, its two endpoints. */
  datatype ConditionPlan = ConditionPlan(
    entryOffset: int, jumpOffsets: seq<int>, endpoints: set<int>, trueEndpoint: int)

  /** `negated` says whether the test is the negation of the condition. */
  datatype EpiloguePlan = EpiloguePlan(
    negated: bool, bodyStart: int, regionEnd: int, conditionBlocks: set<int>, exitBlocks: set<int>,
    ownedOffsets: set<int>)

  // ---------- the trailing pairs ----------

  function SemanticIndices(tokens: seq<Instruction>, n: nat): (r: seq<int>)
    requires n <= |tokens|
    ensures forall i :: i in r <==> 0 <= i < n && !tokens[i].kind.Ignored?
    ensures forall i, j :: 0 <= i < j < |r| ==> r[i] < r[j]
  {
    if n == 0 then [] else
      var front := SemanticIndices(tokens, n - 1);
      if tokens[n - 1].kind.Ignored? then front else
        assert forall k :: 0 <= k < |front| ==> front[k] in front;
        front + [n - 1]
  }

  /** A load of None and a return with only ignored tokens between them. */
  ghost predicate IsPair(tokens: seq<Instruction>, pair: (int, int)) {
    && 0 <= pair.0 < pair.1 < |tokens|
    && tokens[pair.0].kind.LoadConst? && tokens[pair.0].attr.NoneAttr?
    && tokens[pair.1].kind.ReturnValue?
    && forall i :: pair.0 < i < pair.1 ==> tokens[i].kind.Ignored?
  }

  ghost predicate InPairs(pairs: seq<(int, int)>, i: int) {
    exists p :: p in pairs && (i == p.0 || i == p.1)
  }

  /** From position `cursor` on, the semantic tokens are exactly the pairs. */
  ghost predicate PairsFrom(tokens: seq<Instruction>, semantic: seq<int>, cursor: int, pairs: seq<(int, int)>) {
    && 0 <= cursor <= |semantic|
    && (forall p :: p in pairs ==> IsPair(tokens, p))
    && (if pairs == [] then cursor == |semantic| else cursor < |semantic| && pairs[0].0 == semantic[cursor])
    && (forall k :: cursor <= k < |semantic| ==> InPairs(pairs, semantic[k]))
  }

  lemma InMorePairs(p: (int, int), pairs: seq<(int, int)>, i: int)
    requires InPairs(pairs, i) || i == p.0 || i == p.1
    ensures InPairs([p] + pairs, i)
  {
    if InPairs(pairs, i) {
      var q :| q in pairs && (i == q.0 || i == q.1);
      assert q in [p] + pairs;
    } else {
      assert p in [p] + pairs;
    }
  }

  lemma PairsExtend(tokens: seq<Instruction>, semantic: seq<int>, cursor: int, pairs: seq<(int, int)>, p: (int, int))
    requires PairsFrom(tokens, semantic, cursor, pairs) && cursor >= 2 && IsPair(tokens, p)
    requires p.0 == semantic[cursor - 2] && p.1 == semantic[cursor - 1]
    ensures PairsFrom(tokens, semantic, cursor - 2, [p] + pairs)
  {
    forall k | cursor - 2 <= k < |semantic| ensures InPairs([p] + pairs, semantic[k]) {
      InMorePairs(p, pairs, semantic[k]);
    }
  }

  predicate ReturnsNone(tokens: seq<Instruction>, load: int, returned: int) {
    && 0 <= load < |tokens| && 0 <= returned < |tokens|
    && tokens[load].kind.LoadConst? && tokens[load].attr.NoneAttr? && tokens[returned].kind.ReturnValue?
  }

  /** The pairs that end the first `cursor` semantic tokens, in order of appearance. */
  function PairsUpTo(tokens: seq<Instruction>, semantic: seq<int>, cursor: nat): seq<(int, int)> {
    if 2 <= cursor <= |semantic| && ReturnsNone(tokens, semantic[cursor - 2], semantic[cursor - 1])
    then PairsUpTo(tokens, semantic, cursor - 2) + [(semantic[cursor - 2], semantic[cursor - 1])]
    else []
  }

  function Trailing(tokens: seq<Instruction>): seq<(int, int)> {
    PairsUpTo(tokens, SemanticIndices(tokens, |tokens|), |SemanticIndices(tokens, |tokens|)|)
  }

  lemma PairsUpToStep(tokens: seq<Instruction>, semantic: seq<int>, cursor: nat)
    requires cursor <= |semantic|
    ensures PairsUpTo(tokens, semantic, cursor) ==
            if cursor >= 2 && ReturnsNone(tokens, semantic[cursor - 2], semantic[cursor - 1])
            then PairsUpTo(tokens, semantic, cursor - 2) + [(semantic[cursor - 2], semantic[cursor - 1])]
            else []
  {
  }

  lemma Prepend(before: seq<(int, int)>, p: (int, int), pairs: seq<(int, int)>)
    ensures before + [p] + pairs == before + ([p] + pairs)
  {
  }

  /** The pairs that end the stream: they cover everything from the first one on. */
  method TrailingPairs(tokens: seq<Instruction>) returns (pairs: seq<(int, int)>)
    ensures pairs == Trailing(tokens)
    ensures forall p :: p in pairs ==> IsPair(tokens, p)
    ensures pairs != [] ==> forall i :: 0 <= pairs[0].0 <= i < |tokens| && !tokens[i].kind.Ignored? ==>
              InPairs(pairs, i)
  {
    hide SemanticIndices, InPairs, PairsUpTo, IsPair;
    var semantic := SemanticIndices(tokens, |tokens|);
    pairs := [];
    var cursor := |semantic|;
    while cursor >= 2
      invariant PairsFrom(tokens, semantic, cursor, pairs)
      invariant PairsUpTo(tokens, semantic, |semantic|) == PairsUpTo(tokens, semantic, cursor) + pairs
    {
      var load := semantic[cursor - 2];
      var returned := semantic[cursor - 1];
      PairsUpToStep(tokens, semantic, cursor);
      assert load in semantic && returned in semantic;
      if !(tokens[load].kind.LoadConst? && tokens[load].attr.NoneAttr? && tokens[returned].kind.ReturnValue?) {
        break;
      }
      AdjacentIsPair(tokens, semantic, cursor - 2);
      PairsExtend(tokens, semantic, cursor, pairs, (load, returned));
      Prepend(PairsUpTo(tokens, semantic, cursor - 2), (load, returned), pairs);
      pairs := [(load, returned)] + pairs;
      cursor := cursor - 2;
    }
    PairsUpToStep(tokens, semantic, cursor);
    forall i | pairs != [] && 0 <= pairs[0].0 <= i < |tokens| && !tokens[i].kind.Ignored? ensures InPairs(pairs, i) {
      CoveredFrom(tokens, semantic, cursor, pairs, i);
    }
  }

  lemma AdjacentIsPair(tokens: seq<Instruction>, semantic: seq<int>, k: nat)
    requires semantic == SemanticIndices(tokens, |tokens|) && k + 1 < |semantic|
    requires ReturnsNone(tokens, semantic[k], semantic[k + 1])
    ensures IsPair(tokens, (semantic[k], semantic[k + 1]))
  {
    NothingBetween(tokens, semantic, k);
  }

  lemma CoveredFrom(tokens: seq<Instruction>, semantic: seq<int>, cursor: int, pairs: seq<(int, int)>, i: int)
    requires PairsFrom(tokens, semantic, cursor, pairs) && pairs != []
    requires forall a, b :: 0 <= a < b < |semantic| ==> semantic[a] < semantic[b]
    requires i in semantic && pairs[0].0 <= i
    ensures InPairs(pairs, i)
  {
    hide IsPair, InPairs;
    var k :| 0 <= k < |semantic| && semantic[k] == i;
  }

  lemma NothingBetween(tokens: seq<Instruction>, semantic: seq<int>, k: nat)
    requires semantic == SemanticIndices(tokens, |tokens|) && k + 1 < |semantic|
    ensures forall i :: semantic[k] < i < semantic[k + 1] && 0 <= i < |tokens| ==> tokens[i].kind.Ignored?
  {
    hide SemanticIndices;
    forall i | semantic[k] < i < semantic[k + 1] && 0 <= i < |tokens| ensures tokens[i].kind.Ignored? {
      if i in semantic {
        Gap(semantic, k, i);
      }
    }
  }

  lemma Gap(semantic: seq<int>, k: nat, i: int)
    requires forall a, b :: 0 <= a < b < |semantic| ==> semantic[a] < semantic[b]
    requires k + 1 < |semantic| && i in semantic
    ensures i <= semantic[k] || semantic[k + 1] <= i
  {
    var j :| 0 <= j < |semantic| && semantic[j] == i;
    assert j <= k || k + 1 <= j;
  }

  /** A pair lies in one returning block without normal successors. */
  predicate PairInBlock(tokens: seq<Instruction>, cfg: ControlFlowGraph, p: (int, int), k: int)
    requires cfg.WellFormed()
  {
    && 0 <= p.0 < |tokens| && 0 <= p.1 < |tokens|
    && tokens[p.0].offset in cfg.offsetToBlock && tokens[p.1].offset in cfg.offsetToBlock
    && cfg.offsetToBlock[tokens[p.0].offset] == k == cfg.offsetToBlock[tokens[p.1].offset]
    && cfg.LastKind(k).ReturnValue? && cfg.NormalFrom(k) == []
  }

  ghost predicate Owns(tokens: seq<Instruction>, owned: set<int>, p: (int, int)) {
    && 0 <= p.0 < |tokens| && 0 <= p.1 < |tokens|
    && tokens[p.0].offset in owned && tokens[p.1].offset in owned
  }

  ghost predicate OffsetOfPairs(tokens: seq<Instruction>, pairs: seq<(int, int)>, o: int) {
    exists p :: p in pairs && 0 <= p.0 < |tokens| && 0 <= p.1 < |tokens|
                && (o == tokens[p.0].offset || o == tokens[p.1].offset)
  }

  ghost predicate InBlockOfPairs(tokens: seq<Instruction>, cfg: ControlFlowGraph, pairs: seq<(int, int)>, k: int)
    requires cfg.WellFormed()
  {
    exists p :: p in pairs && PairInBlock(tokens, cfg, p, k)
  }

  predicate HasBlock(tokens: seq<Instruction>, cfg: ControlFlowGraph, p: (int, int))
    requires cfg.WellFormed()
  {
    && 0 <= p.0 < |tokens| && tokens[p.0].offset in cfg.offsetToBlock
    && PairInBlock(tokens, cfg, p, cfg.offsetToBlock[tokens[p.0].offset])
  }

  /** Each pair owns a block of its own. */
  ghost predicate PairsPlaced(tokens: seq<Instruction>, cfg: ControlFlowGraph, pairs: seq<(int, int)>)
    requires cfg.WellFormed()
  {
    && (forall i :: 0 <= i < |pairs| ==> HasBlock(tokens, cfg, pairs[i]))
    && forall i, j :: 0 <= i < j < |pairs| ==> !SameBlock(tokens, cfg, pairs[i], pairs[j])
  }

  ghost predicate SameBlock(tokens: seq<Instruction>, cfg: ControlFlowGraph, p: (int, int), q: (int, int))
    requires cfg.WellFormed()
  {
    exists k :: PairInBlock(tokens, cfg, p, k) && PairInBlock(tokens, cfg, q, k)
  }

  method PairBlocks(tokens: seq<Instruction>, cfg: ControlFlowGraph, pairs: seq<(int, int)>)
    returns (r: Option<(set<int>, set<int>)>)
    requires cfg.WellFormed() && forall p :: p in pairs ==> IsPair(tokens, p)
    ensures r.Some? <==> PairsPlaced(tokens, cfg, pairs)
    ensures r.Some? ==> forall k :: k in r.value.0 <==> InBlockOfPairs(tokens, cfg, pairs, k)
    ensures r.Some? ==> forall o :: o in r.value.1 <==> OffsetOfPairs(tokens, pairs, o)
    ensures r.Some? ==> |r.value.0| == |pairs|
  {
    hide IsPair, PairInBlock, InBlockOfPairs, OffsetOfPairs, SameBlock;
    var blocks, owned := {}, {};
    NoPairs(tokens, cfg);
    assert pairs[..0] == [];
    for i := 0 to |pairs|
      invariant forall j :: 0 <= j < i ==> HasBlock(tokens, cfg, pairs[j])
      invariant forall k :: k in blocks <==> InBlockOfPairs(tokens, cfg, pairs[..i], k)
      invariant forall o :: o in owned <==> OffsetOfPairs(tokens, pairs[..i], o)
      invariant |blocks| <= i && (|blocks| == i <==> PairsPlaced(tokens, cfg, pairs[..i]))
    {
      assert pairs[i] in pairs && pairs[..i + 1] == pairs[..i] + [pairs[i]];
      var k := PairBlock(tokens, cfg, pairs[i]);
      if k == None {
        return None;
      }
      MorePairs(tokens, cfg, pairs[..i], pairs[i], k.value);
      MoreOffsets(tokens, pairs[..i], pairs[i]);
      blocks := blocks + {k.value};
      owned := owned + {tokens[pairs[i].0].offset, tokens[pairs[i].1].offset};
    }
    assert pairs[..|pairs|] == pairs;
    if |blocks| != |pairs| {
      return None;
    }
    r := Some((blocks, owned));
  }

  lemma NoPairs(tokens: seq<Instruction>, cfg: ControlFlowGraph)
    requires cfg.WellFormed()
    ensures PairsPlaced(tokens, cfg, [])
    ensures forall k :: !InBlockOfPairs(tokens, cfg, [], k)
    ensures forall o :: !OffsetOfPairs(tokens, [], o)
  {
  }

  lemma MorePairs(tokens: seq<Instruction>, cfg: ControlFlowGraph, pairs: seq<(int, int)>, q: (int, int), b: int)
    requires cfg.WellFormed() && PairInBlock(tokens, cfg, q, b)
    ensures HasBlock(tokens, cfg, q)
    ensures forall k :: InBlockOfPairs(tokens, cfg, pairs + [q], k) <==> InBlockOfPairs(tokens, cfg, pairs, k) || k == b
    ensures PairsPlaced(tokens, cfg, pairs + [q]) <==>
              PairsPlaced(tokens, cfg, pairs) && !InBlockOfPairs(tokens, cfg, pairs, b)
  {
    assert q in pairs + [q];
    forall k ensures InBlockOfPairs(tokens, cfg, pairs + [q], k) <==> InBlockOfPairs(tokens, cfg, pairs, k) || k == b {
      if InBlockOfPairs(tokens, cfg, pairs, k) {
        var p :| p in pairs && PairInBlock(tokens, cfg, p, k);
        assert p in pairs + [q];
      }
    }
    MorePlaced(tokens, cfg, pairs, q, b);
  }

  lemma MorePlaced(tokens: seq<Instruction>, cfg: ControlFlowGraph, pairs: seq<(int, int)>, q: (int, int), b: int)
    requires cfg.WellFormed() && PairInBlock(tokens, cfg, q, b)
    ensures PairsPlaced(tokens, cfg, pairs + [q]) <==>
              PairsPlaced(tokens, cfg, pairs) && !InBlockOfPairs(tokens, cfg, pairs, b)
  {
    BlockOfPair(tokens, cfg, q, b);
    hide PairInBlock;
    var more := pairs + [q];
    if PairsPlaced(tokens, cfg, more) {
      forall i | 0 <= i < |pairs| ensures HasBlock(tokens, cfg, pairs[i]) && !PairInBlock(tokens, cfg, pairs[i], b) {
        assert more[i] == pairs[i] && more[|pairs|] == q;
      }
      forall i, j | 0 <= i < j < |pairs| ensures !SameBlock(tokens, cfg, pairs[i], pairs[j]) {
        assert more[i] == pairs[i] && more[j] == pairs[j];
      }
    }
    if PairsPlaced(tokens, cfg, pairs) && !InBlockOfPairs(tokens, cfg, pairs, b) {
      forall i, j | 0 <= i < j < |more| ensures !SameBlock(tokens, cfg, more[i], more[j]) {
        if j == |pairs| {
          assert more[i] in pairs;
        }
      }
    }
  }

  lemma BlockOfPair(tokens: seq<Instruction>, cfg: ControlFlowGraph, q: (int, int), b: int)
    requires cfg.WellFormed() && PairInBlock(tokens, cfg, q, b)
    ensures HasBlock(tokens, cfg, q)
    ensures forall p :: SameBlock(tokens, cfg, p, q) <==> PairInBlock(tokens, cfg, p, b)
  {
  }

  lemma MoreOffsets(tokens: seq<Instruction>, pairs: seq<(int, int)>, q: (int, int))
    requires 0 <= q.0 < |tokens| && 0 <= q.1 < |tokens|
    ensures forall o :: OffsetOfPairs(tokens, pairs + [q], o) <==>
              OffsetOfPairs(tokens, pairs, o) || o == tokens[q.0].offset || o == tokens[q.1].offset
  {
    assert q in pairs + [q];
    forall o ensures OffsetOfPairs(tokens, pairs + [q], o) <==>
              OffsetOfPairs(tokens, pairs, o) || o == tokens[q.0].offset || o == tokens[q.1].offset {
      if OffsetOfPairs(tokens, pairs, o) {
        var p :| p in pairs && 0 <= p.0 < |tokens| && 0 <= p.1 < |tokens|
                 && (o == tokens[p.0].offset || o == tokens[p.1].offset);
        assert p in pairs + [q];
      }
    }
  }

  method PairBlock(tokens: seq<Instruction>, cfg: ControlFlowGraph, p: (int, int)) returns (k: Option<int>)
    requires cfg.WellFormed() && IsPair(tokens, p)
    ensures k.Some? <==> HasBlock(tokens, cfg, p)
    ensures k.Some? ==> PairInBlock(tokens, cfg, p, k.value) && 0 <= p.0 < |tokens| && 0 <= p.1 < |tokens|
  {
    var a, b := tokens[p.0].offset, tokens[p.1].offset;
    if a !in cfg.offsetToBlock || b !in cfg.offsetToBlock || cfg.offsetToBlock[a] != cfg.offsetToBlock[b] {
      return None;
    }
    if !cfg.LastKind(cfg.offsetToBlock[a]).ReturnValue? || cfg.NormalFrom(cfg.offsetToBlock[a]) != [] {
      return None;
    }
    k := Some(cfg.offsetToBlock[a]);
  }

  // ---------- the forward region ----------

  /** Normal edges from visited blocks lead forward, to visited or queued blocks. */
  ghost predicate Forward(cfg: ControlFlowGraph, visited: set<int>, pending: seq<int>)
    requires cfg.WellFormed()
  {
    forall e :: e in cfg.edges && e.source in visited && !e.kind.Exception? ==>
      && cfg.blocks[e.source].start < cfg.blocks[e.target].start
      && (e.target in visited || e.target in pending)
  }

  /** The normal successor relation. */
  ghost function NormalArcs(cfg: ControlFlowGraph): Arcs {
    Graph(Below(|cfg.blocks|), NormalOnly(cfg.edges), 0).Out()
  }

  /** The blocks that normal edges reach from `entry`. */
  ghost function NormalRegion(cfg: ControlFlowGraph, entry: int): (s: set<int>)
    ensures forall k :: k in s <==> 0 <= k < |cfg.blocks| && Reaches(NormalArcs(cfg), entry, k)
  {
    set k | k in Below(|cfg.blocks|) && Reaches(NormalArcs(cfg), entry, k)
  }

  /** A block has a jump and a fall-through edge at most, as in every built graph. */
  predicate FewSuccessors(cfg: ControlFlowGraph) {
    forall k :: 0 <= k < |cfg.blocks| ==> |cfg.NormalFrom(k)| <= 2
  }

  lemma BuiltFewSuccessors(code: seq<Instruction>, regions: seq<Region>, cfg: ControlFlowGraph)
    requires code != [] && Built(code, regions, cfg) && cfg.WellFormed()
    ensures FewSuccessors(cfg)
  {
    hide LeaderCuts, Tiles, Locates, Flagged;
    forall k | 0 <= k < |cfg.blocks| ensures |cfg.NormalFrom(k)| <= 2 {
      assert forall e :: e in cfg.NormalFrom(k) ==> BlockEdge(cfg.blocks, regions, cfg.offsetToBlock, e);
      DistinctFrom(cfg.edges, k);
      DistinctNormal(EdgesFrom(cfg.edges, k));
      TwoWays(cfg, regions, k);
    }
  }

  lemma TwoWays(cfg: ControlFlowGraph, regions: seq<Region>, k: int)
    requires cfg.WellFormed() && 0 <= k < |cfg.blocks| && Distinct(cfg.NormalFrom(k))
    requires forall e :: e in cfg.NormalFrom(k) ==> BlockEdge(cfg.blocks, regions, cfg.offsetToBlock, e)
    ensures |cfg.NormalFrom(k)| <= 2
  {
    var last := LastOf(cfg.blocks[k]);
    var target := InstructionTarget(last);
    var jump := if target.Some? && target.value in cfg.offsetToBlock
                then Edge(k, cfg.offsetToBlock[target.value],
                    if UnconditionalJump(last.kind) then Jump else EdgeKinds(last.kind).0)
                else Edge(k, k, Exception);
    var fall := Edge(k, k + 1, if target.Some? then EdgeKinds(last.kind).1 else Fallthrough);
    forall e | e in cfg.NormalFrom(k) ensures e == jump || e == fall {
      assert e in cfg.edges && e.source == k && !e.kind.Exception?;
    }
    AtMostTwo(cfg.NormalFrom(k), jump, fall);
  }

  /** Everything met is reached, edges of visited blocks lead forward, and pops are paid for by visits, two each. */
  ghost predicate WalksForward(cfg: ControlFlowGraph, entry: int, visited: set<int>, pending: seq<int>, workCount: int)
    requires cfg.WellFormed()
  {
    && Forward(cfg, visited, pending)
    && (entry in visited || entry in pending)
    && (forall k :: k in visited || k in pending ==> k in NormalRegion(cfg, entry))
    && (FewSuccessors(cfg) ==> workCount + |pending| <= 1 + 2 * |visited|)
  }

  lemma WalkStarts(cfg: ControlFlowGraph, entry: int)
    requires cfg.WellFormed() && 0 <= entry < |cfg.blocks|
    ensures WalksForward(cfg, entry, {}, [entry], 0)
  {
    ConnectsSelf(NormalArcs(cfg), entry, {});
  }

  lemma NormalStep(cfg: ControlFlowGraph, entry: int, e: Edge)
    requires cfg.WellFormed() && e.source in NormalRegion(cfg, entry) && e in cfg.edges && !e.kind.Exception?
    ensures e.target in NormalRegion(cfg, entry)
  {
    var arcs := NormalArcs(cfg);
    assert e in NormalOnly(cfg.edges);
    assert e.target in Graph(Below(|cfg.blocks|), NormalOnly(cfg.edges), 0).Successors(e.source);
    ConnectsStep(arcs, e.source, e.target, {});
    ConnectsTrans(arcs, entry, e.source, e.target, {});
  }

  lemma WalkOn(cfg: ControlFlowGraph, entry: int, visited: set<int>, rest: seq<int>, k: int, workCount: int)
    requires cfg.WellFormed() && WalksForward(cfg, entry, visited, rest + [k], workCount) && k !in visited
    requires forall e :: e in cfg.NormalFrom(k) ==> cfg.blocks[e.source].start < cfg.blocks[e.target].start
    ensures WalksForward(cfg, entry, visited + {k}, rest + Targets(cfg.NormalFrom(k)), workCount + 1)
  {
    hide NormalRegion;
    var more := rest + Targets(cfg.NormalFrom(k));
    assert k in rest + [k];
    forall m | m in more ensures m in NormalRegion(cfg, entry) {
      if m in rest {
        assert m in rest + [k];
      } else {
        var e :| e in cfg.NormalFrom(k) && e.target == m;
        NormalStep(cfg, entry, e);
      }
    }
    forall e | e in cfg.edges && e.source in visited + {k} && !e.kind.Exception?
      ensures cfg.blocks[e.source].start < cfg.blocks[e.target].start
      ensures e.target in visited + {k} || e.target in more
    {
      if e.source == k {
        assert e in cfg.NormalFrom(k) && e.target in Targets(cfg.NormalFrom(k));
      } else if e.target !in visited + {k} {
        assert e.target in rest + [k];
      }
    }
  }

  lemma WalkSkips(cfg: ControlFlowGraph, entry: int, visited: set<int>, rest: seq<int>, k: int, workCount: int)
    requires cfg.WellFormed() && WalksForward(cfg, entry, visited, rest + [k], workCount) && k in visited
    ensures WalksForward(cfg, entry, visited, rest, workCount + 1)
  {
    hide NormalRegion;
    forall m | m in rest ensures m in rest + [k] {
    }
    forall e | e in cfg.edges && e.source in visited && !e.kind.Exception?
      ensures e.target in visited || e.target in rest
    {
      if e.target !in visited {
        assert e.target in rest + [k];
      }
    }
  }

  lemma WalkDone(cfg: ControlFlowGraph, entry: int, visited: set<int>, workCount: int)
    requires cfg.WellFormed() && 0 <= entry < |cfg.blocks| && WalksForward(cfg, entry, visited, [], workCount)
    ensures visited == NormalRegion(cfg, entry) && Forward(cfg, visited, [])
  {
    forall k, m | k in visited && Step(NormalArcs(cfg), k, m) ensures m in visited {
      var e :| e in NormalOnly(cfg.edges) && e.source == k && e.target == m;
      assert e in cfg.edges;
    }
    SeenAll(NormalArcs(cfg), visited, entry);
    Extensional(visited, NormalRegion(cfg, entry));
  }

  lemma WalkWithinLimit(cfg: ControlFlowGraph, entry: int, visited: set<int>, pending: seq<int>, workCount: int)
    requires cfg.WellFormed() && WalksForward(cfg, entry, visited, pending, workCount) && FewSuccessors(cfg)
    ensures workCount + |pending| <= 1 + 2 * |cfg.blocks|
  {
    Subset(visited, Below(|cfg.blocks|));
    SubsetSize(visited, Below(|cfg.blocks|));
    BelowSize(|cfg.blocks|);
  }

  lemma NotForward(cfg: ControlFlowGraph, entry: int, k: int)
    requires cfg.WellFormed() && k in NormalRegion(cfg, entry)
    requires exists e :: e in cfg.NormalFrom(k) && cfg.blocks[e.target].start <= cfg.blocks[k].start
    ensures !Forward(cfg, NormalRegion(cfg, entry), [])
  {
    hide NormalRegion;
    var e :| e in cfg.NormalFrom(k) && cfg.blocks[e.target].start <= cfg.blocks[k].start;
    assert e in cfg.edges && e.source == k && !e.kind.Exception?;
  }

  /**
   Walk all normal edges from the entry; nothing exactly when one leads backward. The work limit
   never interferes on graphs whose blocks have at most two normal edges.
   */
  method WalkForward(cfg: ControlFlowGraph, entry: int) returns (r: Option<set<int>>)
    requires cfg.WellFormed() && 0 <= entry < |cfg.blocks|
    ensures r.Some? ==> r.value == NormalRegion(cfg, entry) && Forward(cfg, r.value, [])
    ensures r.None? && FewSuccessors(cfg) ==> !Forward(cfg, NormalRegion(cfg, entry), [])
  {
    hide WalksForward, Forward, FewSuccessors, NormalRegion;
    var pending := [entry];
    var visited: set<int> := {};
    var workLimit := if |cfg.blocks| * 4 > 64 then |cfg.blocks| * 4 else 64;
    var workCount := 0;
    WalkStarts(cfg, entry);
    while pending != []
      invariant WalksForward(cfg, entry, visited, pending, workCount) && workCount <= workLimit
      decreases workLimit - workCount
    {
      if FewSuccessors(cfg) {
        WalkWithinLimit(cfg, entry, visited, pending, workCount);
      }
      workCount := workCount + 1;
      if workCount > workLimit {
        return None;
      }
      var k := pending[|pending| - 1];
      var rest := pending[..|pending| - 1];
      assert pending == rest + [k];
      pending := rest;
      if k in visited {
        WalkSkips(cfg, entry, visited, rest, k, workCount - 1);
        continue;
      }
      PendingReached(cfg, entry, visited, rest, k, workCount - 1);
      if exists e :: e in cfg.NormalFrom(k) && cfg.blocks[e.target].start <= cfg.blocks[k].start {
        NotForward(cfg, entry, k);
        return None;
      }
      WalkOn(cfg, entry, visited, rest, k, workCount - 1);
      visited := visited + {k};
      pending := rest + Targets(cfg.NormalFrom(k));
    }
    WalkDone(cfg, entry, visited, workCount);
    r := Some(visited);
  }

  lemma PendingReached(cfg: ControlFlowGraph, entry: int, visited: set<int>, rest: seq<int>, k: int, workCount: int)
    requires cfg.WellFormed() && WalksForward(cfg, entry, visited, rest + [k], workCount)
    ensures k in NormalRegion(cfg, entry) && 0 <= k < |cfg.blocks|
  {
    assert k in rest + [k];
  }

  /** The checks on a walked region: no exception edge touches it, and outsiders enter only forward at its entry. */
  predicate Isolated(cfg: ControlFlowGraph, visited: set<int>, entry: int)
    requires cfg.WellFormed() && 0 <= entry < |cfg.blocks|
  {
    && (forall e :: e in cfg.edges && e.kind.Exception? ==> e.source !in visited && e.target !in visited)
    && (forall e :: e in cfg.edges && e.target in visited && e.source !in visited ==>
          e.target == entry && cfg.blocks[e.source].start < cfg.blocks[entry].start)
  }

  /** What a plan's region has been checked for. */
  ghost predicate Checked(tokens: seq<Instruction>, cfg: ControlFlowGraph, plan: ConditionPlan, visited: set<int>,
                          r: EpiloguePlan)
    requires cfg.WellFormed()
  {
    && plan.entryOffset in cfg.offsetToBlock
    && cfg.offsetToBlock[plan.entryOffset] in visited
    && visited <= Below(|cfg.blocks|)
    && Forward(cfg, visited, [])
    && Isolated(cfg, visited, cfg.offsetToBlock[plan.entryOffset])
    && r.conditionBlocks <= visited
    && (forall o :: o in plan.jumpOffsets ==> o in cfg.offsetToBlock && cfg.offsetToBlock[o] in r.conditionBlocks)
    && (forall k :: k in r.exitBlocks <==> k in visited && cfg.NormalFrom(k) == [])
    && (forall k :: k in r.exitBlocks ==> exists p :: OwnedPair(tokens, cfg, r, p, k))
  }

  /** A pair of block k that the plan owns. */
  ghost predicate OwnedPair(tokens: seq<Instruction>, cfg: ControlFlowGraph, r: EpiloguePlan, p: (int, int), k: int)
    requires cfg.WellFormed()
  {
    IsPair(tokens, p) && PairInBlock(tokens, cfg, p, k) && Owns(tokens, r.ownedOffsets, p)
  }

  /** The last token at an offset, as a dictionary filled in order remembers it. */
  function IndexBelow(tokens: seq<Instruction>, o: int, n: nat): (r: Option<int>)
    requires n <= |tokens|
    ensures match r
            case Some(i) => 0 <= i < n && tokens[i].offset == o && forall j :: i < j < n ==> tokens[j].offset != o
            case None => forall i :: 0 <= i < n ==> tokens[i].offset != o
  {
    if n == 0 then None
    else if tokens[n - 1].offset == o then Some(n - 1)
    else IndexBelow(tokens, o, n - 1)
  }

  function IndexOf(tokens: seq<Instruction>, o: int): Option<int> {
    IndexBelow(tokens, o, |tokens|)
  }

  /** An endpoint is a token that begins a block. */
  predicate BeginsBlock(tokens: seq<Instruction>, cfg: ControlFlowGraph, o: int)
    requires cfg.WellFormed()
  {
    IndexOf(tokens, o).Some? && o in cfg.offsetToBlock && cfg.blocks[cfg.offsetToBlock[o]].start == o
  }

  /** Of the two endpoints, `body` begins before the trailing pairs, the other one among them. */
  ghost predicate SplitsAt(tokens: seq<Instruction>, cfg: ControlFlowGraph, plan: ConditionPlan, clusterStart: int,
                           body: int)
    requires cfg.WellFormed()
  {
    && (forall o :: o in plan.endpoints ==> BeginsBlock(tokens, cfg, o))
    && body in plan.endpoints && IndexOf(tokens, body).value < clusterStart
    && exists epilogue ::
         && epilogue in plan.endpoints && IndexOf(tokens, epilogue).value >= clusterStart
         && forall o :: o in plan.endpoints ==> o == body || o == epilogue
  }

  /** Sort out the endpoints; nothing unless exactly one precedes and exactly one follows the cluster start. */
  method BodyEndpoint(tokens: seq<Instruction>, cfg: ControlFlowGraph, plan: ConditionPlan, clusterStart: int)
    returns (r: Option<int>)
    requires cfg.WellFormed()
    ensures match r
            case Some(body) => SplitsAt(tokens, cfg, plan, clusterStart, body)
            case None => forall body :: !SplitsAt(tokens, cfg, plan, clusterStart, body)
  {
    hide IndexOf;
    if exists o :: o in plan.endpoints && !BeginsBlock(tokens, cfg, o) {
      return None;
    }
    var bodies := set o | o in plan.endpoints && IndexOf(tokens, o).value < clusterStart;
    var epilogues := set o | o in plan.endpoints && IndexOf(tokens, o).value >= clusterStart;
    if |bodies| != 1 || |epilogues| != 1 {
      forall body ensures !SplitsAt(tokens, cfg, plan, clusterStart, body) {
        NoSplit(tokens, cfg, plan, clusterStart, bodies, epilogues, body);
      }
      return None;
    }
    var body := TheOnly(bodies);
    var epilogue := TheOnly(epilogues);
    assert body in bodies && epilogue in epilogues;
    forall o | o in plan.endpoints ensures o == body || o == epilogue {
      assert o in bodies || o in epilogues;
    }
    r := Some(body);
  }

  lemma NoSplit(tokens: seq<Instruction>, cfg: ControlFlowGraph, plan: ConditionPlan, clusterStart: int,
                bodies: set<int>, epilogues: set<int>, body: int)
    requires cfg.WellFormed() && (forall o :: o in plan.endpoints ==> BeginsBlock(tokens, cfg, o))
    requires forall o :: o in bodies <==>
              o in plan.endpoints && IndexOf(tokens, o).Some? && IndexOf(tokens, o).value < clusterStart
    requires forall o :: o in epilogues <==>
              o in plan.endpoints && IndexOf(tokens, o).Some? && IndexOf(tokens, o).value >= clusterStart
    requires |bodies| != 1 || |epilogues| != 1
    ensures !SplitsAt(tokens, cfg, plan, clusterStart, body)
  {
    hide IndexOf;
    if SplitsAt(tokens, cfg, plan, clusterStart, body) {
      var epilogue :| epilogue in plan.endpoints && IndexOf(tokens, epilogue).value >= clusterStart
                      && forall o :: o in plan.endpoints ==> o == body || o == epilogue;
      Singleton(bodies, body);
      Singleton(epilogues, epilogue);
    }
  }

  lemma Singleton(s: set<int>, x: int)
    requires forall o :: o in s <==> o == x
    ensures |s| == 1
  {
    forall o ensures o in s <==> o in {x} {
    }
    Extensional(s, {x});
  }

  method TheOnly<T(==)>(s: set<T>) returns (x: T)
    requires |s| == 1
    ensures s == {x}
  {
    x :| x in s;
    assert |s - {x}| == 0;
    assert s == {x};
  }

  predicate ContextAllows(context: CodeContext) {
    !context.insideLoop && !context.classBody && !context.moduleBody && !context.generatorFlags
  }

  predicate HasTokens(tokens: seq<Instruction>, lo: int, hi: int) {
    exists i :: lo <= i < hi && 0 <= i < |tokens| && !tokens[i].kind.Ignored?
  }

  /** The region from the entry is closed, isolated, moves forward, and ends exactly in the pairs. */
  ghost predicate RegionFits(tokens: seq<Instruction>, cfg: ControlFlowGraph, plan: ConditionPlan,
                             pairs: seq<(int, int)>)
    requires cfg.WellFormed() && plan.entryOffset in cfg.offsetToBlock
  {
    var entry := cfg.offsetToBlock[plan.entryOffset];
    var region := NormalRegion(cfg, entry);
    && Forward(cfg, region, [])
    && Isolated(cfg, region, entry)
    && (forall o :: o in plan.jumpOffsets ==> o in cfg.offsetToBlock && cfg.offsetToBlock[o] in region)
    && (forall k :: k in region && cfg.NormalFrom(k) == [] <==> InBlockOfPairs(tokens, cfg, pairs, k))
  }

  /** When a plan is due. */
  ghost predicate Acceptable(context: CodeContext, tokens: seq<Instruction>, cfg: ControlFlowGraph,
                             plan: ConditionPlan, regionEnd: int, body: int)
    requires cfg.WellFormed()
  {
    && ContextAllows(context) && regionEnd == |tokens|
    && |Trailing(tokens)| >= 2 && PairsPlaced(tokens, cfg, Trailing(tokens))
    && plan.jumpOffsets != [] && plan.entryOffset in cfg.offsetToBlock
    && RegionFits(tokens, cfg, plan, Trailing(tokens))
    && SplitsAt(tokens, cfg, plan, Trailing(tokens)[0].0, body)
    && HasTokens(tokens, IndexOf(tokens, body).value, Trailing(tokens)[0].0)
  }

  /** What a plan says, given its body endpoint. */
  ghost predicate Describes(tokens: seq<Instruction>, cfg: ControlFlowGraph, plan: ConditionPlan, body: int,
                            r: EpiloguePlan)
    requires cfg.WellFormed()
  {
    && r.negated == (body != plan.trueEndpoint)
    && IndexOf(tokens, body) == Some(r.bodyStart) && r.regionEnd == |tokens|
    && (forall k :: k in r.conditionBlocks <==>
          exists o :: o in plan.jumpOffsets && o in cfg.offsetToBlock && cfg.offsetToBlock[o] == k)
    && (forall k :: k in r.exitBlocks <==> InBlockOfPairs(tokens, cfg, Trailing(tokens), k))
    && (forall o :: o in r.ownedOffsets <==> OffsetOfPairs(tokens, Trailing(tokens), o))
  }

  /** Walk the region and compare it with the pairs. */
  method CheckRegion(tokens: seq<Instruction>, cfg: ControlFlowGraph, plan: ConditionPlan, pairs: seq<(int, int)>,
                     conditionBlocks: set<int>, pairBlocks: set<int>) returns (ok: bool)
    requires cfg.WellFormed() && plan.entryOffset in cfg.offsetToBlock
    requires forall o :: o in plan.jumpOffsets ==> o in cfg.offsetToBlock
    requires conditionBlocks == set o | o in plan.jumpOffsets :: cfg.offsetToBlock[o]
    requires forall k :: k in pairBlocks <==> InBlockOfPairs(tokens, cfg, pairs, k)
    ensures ok ==> RegionFits(tokens, cfg, plan, pairs)
    ensures !ok && FewSuccessors(cfg) ==> !RegionFits(tokens, cfg, plan, pairs)
  {
    hide Forward, Isolated, InBlockOfPairs, FewSuccessors, NormalRegion;
    var entry := cfg.offsetToBlock[plan.entryOffset];
    var walked := WalkForward(cfg, entry);
    if walked == None {
      return false;
    }
    var region := walked.value;
    if exists o :: o in plan.jumpOffsets && cfg.offsetToBlock[o] !in region {
      return false;
    }
    if !Isolated(cfg, region, entry) {
      return false;
    }
    var exitBlocks := set k | k in region && cfg.NormalFrom(k) == [];
    if exitBlocks != pairBlocks {
      ExitsDiffer(exitBlocks, pairBlocks);
      return false;
    }
    ok := true;
  }

  lemma ExitsDiffer(a: set<int>, b: set<int>)
    requires a != b
    ensures exists k :: !(k in a <==> k in b)
  {
    if forall k :: k in a <==> k in b {
      Extensional(a, b);
    }
  }

  /**
   A plan exactly when the region between the condition and the trailing pairs passes every
   check. The work limit only rejects, and never on graphs with two normal edges a block.
   */
  method ImplicitReturnEpiloguePlan(context: CodeContext, tokens: seq<Instruction>, cfg: ControlFlowGraph,
                                    plan: ConditionPlan, regionEnd: int) returns (r: Option<EpiloguePlan>)
    requires cfg.WellFormed()
    ensures r.Some? ==> exists body ::
              Acceptable(context, tokens, cfg, plan, regionEnd, body) && Describes(tokens, cfg, plan, body, r.value)
    ensures FewSuccessors(cfg) && r.None? ==> forall body :: !Acceptable(context, tokens, cfg, plan, regionEnd, body)
  {
    hide RegionFits, PairsPlaced, SplitsAt, IsPair, InPairs, InBlockOfPairs, OffsetOfPairs, FewSuccessors, Trailing;
    hide IndexOf;
    if !ContextAllows(context) || regionEnd != |tokens| {
      return None;
    }
    var pairs := TrailingPairs(tokens);
    if |pairs| < 2 || plan.jumpOffsets == [] {
      return None;
    }
    if plan.entryOffset !in cfg.offsetToBlock {
      return None;
    }
    if exists o :: o in plan.jumpOffsets && o !in cfg.offsetToBlock {
      UnknownJump(tokens, cfg, plan, pairs);
      return None;
    }
    var conditionBlocks := set o | o in plan.jumpOffsets :: cfg.offsetToBlock[o];
    var owned := PairBlocks(tokens, cfg, pairs);
    if owned == None {
      return None;
    }
    var (pairBlocks, ownedOffsets) := owned.value;
    var fits := CheckRegion(tokens, cfg, plan, pairs, conditionBlocks, pairBlocks);
    if !fits {
      return None;
    }
    var body := BodyEndpoint(tokens, cfg, plan, pairs[0].0);
    if body == None {
      return None;
    }
    var bodyStart := BodyStart(tokens, cfg, plan, pairs[0].0, body.value);
    if !HasTokens(tokens, bodyStart, pairs[0].0) {
      OneBody(tokens, cfg, plan, pairs[0].0, body.value);
      return None;
    }
    r := Some(EpiloguePlan(body.value != plan.trueEndpoint, bodyStart, regionEnd, conditionBlocks, pairBlocks,
                          ownedOffsets));
    assert Acceptable(context, tokens, cfg, plan, regionEnd, body.value);
    assert Describes(tokens, cfg, plan, body.value, r.value);
  }

  method BodyStart(tokens: seq<Instruction>, cfg: ControlFlowGraph, plan: ConditionPlan, clusterStart: int, body: int)
    returns (i: int)
    requires cfg.WellFormed() && SplitsAt(tokens, cfg, plan, clusterStart, body)
    ensures IndexOf(tokens, body) == Some(i)
  {
    i := IndexOf(tokens, body).value;
  }

  lemma UnknownJump(tokens: seq<Instruction>, cfg: ControlFlowGraph, plan: ConditionPlan, pairs: seq<(int, int)>)
    requires cfg.WellFormed() && plan.entryOffset in cfg.offsetToBlock
    requires exists o :: o in plan.jumpOffsets && o !in cfg.offsetToBlock
    ensures !RegionFits(tokens, cfg, plan, pairs)
  {
  }

  lemma OneBody(tokens: seq<Instruction>, cfg: ControlFlowGraph, plan: ConditionPlan, clusterStart: int, body: int)
    requires cfg.WellFormed() && SplitsAt(tokens, cfg, plan, clusterStart, body)
    ensures forall other :: SplitsAt(tokens, cfg, plan, clusterStart, other) ==> other == body
  {
    hide IndexOf;
  }

  /** The trailing pairs really are pairs. */
  lemma {:induction false} TrailingArePairs(tokens: seq<Instruction>, cursor: nat)
    requires cursor <= |SemanticIndices(tokens, |tokens|)|
    ensures forall p :: p in PairsUpTo(tokens, SemanticIndices(tokens, |tokens|), cursor) ==> IsPair(tokens, p)
  {
    hide SemanticIndices, IsPair;
    var semantic := SemanticIndices(tokens, |tokens|);
    if cursor >= 2 && ReturnsNone(tokens, semantic[cursor - 2], semantic[cursor - 1]) {
      AdjacentIsPair(tokens, semantic, cursor - 2);
      TrailingArePairs(tokens, cursor - 2);
    }
  }

  lemma OwnsItsPairs(tokens: seq<Instruction>, cfg: ControlFlowGraph, pairs: seq<(int, int)>, r: EpiloguePlan)
    requires cfg.WellFormed() && forall p :: p in pairs ==> IsPair(tokens, p)
    requires forall o :: o in r.ownedOffsets <==> OffsetOfPairs(tokens, pairs, o)
    ensures forall k :: InBlockOfPairs(tokens, cfg, pairs, k) ==> exists p :: OwnedPair(tokens, cfg, r, p, k)
  {
    hide PairInBlock;
    forall k | InBlockOfPairs(tokens, cfg, pairs, k) ensures exists p :: OwnedPair(tokens, cfg, r, p, k) {
      var p :| p in pairs && PairInBlock(tokens, cfg, p, k);
      assert IsPair(tokens, p);
      assert OffsetOfPairs(tokens, pairs, tokens[p.0].offset) && OffsetOfPairs(tokens, pairs, tokens[p.1].offset);
      assert OwnedPair(tokens, cfg, r, p, k);
    }
  }

  /** A returned plan gives the facts that the statements about runs start from. */
  lemma AcceptedIsChecked(context: CodeContext, tokens: seq<Instruction>, cfg: ControlFlowGraph,
                          plan: ConditionPlan, regionEnd: int, body: int, r: EpiloguePlan)
    requires cfg.WellFormed() && Acceptable(context, tokens, cfg, plan, regionEnd, body)
    requires Describes(tokens, cfg, plan, body, r)
    ensures Checked(tokens, cfg, plan, NormalRegion(cfg, cfg.offsetToBlock[plan.entryOffset]), r)
  {
    hide IsPair, InBlockOfPairs, OffsetOfPairs, Forward, Isolated, SplitsAt, PairsPlaced, OwnedPair;
    TrailingArePairs(tokens, |SemanticIndices(tokens, |tokens|)|);
    OwnsItsPairs(tokens, cfg, Trailing(tokens), r);
    var entry := cfg.offsetToBlock[plan.entryOffset];
    ConnectsSelf(NormalArcs(cfg), entry, {});
    Subset(r.conditionBlocks, NormalRegion(cfg, entry));
    Subset(NormalRegion(cfg, entry), Below(|cfg.blocks|));
  }

  // ---------- what a plan means for runs ----------

  /** p is a run that starts at block k. */
  ghost predicate RunFrom(cfg: ControlFlowGraph, k: int, p: seq<Edge>) {
    (p != [] ==> p[0].source == k) && Follows(cfg, p)
  }

  /** The block a run has arrived at. */
  ghost function Arrived(k: int, p: seq<Edge>): int {
    if p == [] then k else p[|p| - 1].target
  }

  lemma RunFront(cfg: ControlFlowGraph, k: int, p: seq<Edge>)
    requires RunFrom(cfg, k, p) && p != []
    ensures RunFrom(cfg, k, p[..|p| - 1]) && p[|p| - 1] in cfg.edges
    ensures p[|p| - 1].source == Arrived(k, p[..|p| - 1])
  {
  }

  /** One step of a checked region stays in it and moves forward on a normal edge. */
  ghost predicate StepsForward(cfg: ControlFlowGraph, visited: set<int>, e: Edge) {
    && e.source in visited && e.target in visited && !e.kind.Exception?
    && 0 <= e.source < |cfg.blocks| && 0 <= e.target < |cfg.blocks|
    && cfg.blocks[e.source].start < cfg.blocks[e.target].start
  }

  lemma CheckedSteps(tokens: seq<Instruction>, cfg: ControlFlowGraph, plan: ConditionPlan,
                     visited: set<int>, r: EpiloguePlan, e: Edge)
    requires cfg.WellFormed() && Checked(tokens, cfg, plan, visited, r)
    requires e in cfg.edges && e.source in visited
    ensures StepsForward(cfg, visited, e)
  {
  }

  /** Runs stay in the region, on normal edges, moving forward. */
  lemma {:induction false} RunStays(tokens: seq<Instruction>, cfg: ControlFlowGraph, plan: ConditionPlan,
                                    visited: set<int>, r: EpiloguePlan, p: seq<Edge>)
    requires cfg.WellFormed() && Checked(tokens, cfg, plan, visited, r)
    requires RunFrom(cfg, cfg.offsetToBlock[plan.entryOffset], p)
    ensures Arrived(cfg.offsetToBlock[plan.entryOffset], p) in visited
    ensures forall i :: 0 <= i < |p| ==> StepsForward(cfg, visited, p[i])
    decreases |p|
  {
    hide StepsForward, RunFrom;
    if p != [] {
      var front, last := p[..|p| - 1], p[|p| - 1];
      RunFront(cfg, cfg.offsetToBlock[plan.entryOffset], p);
      RunStays(tokens, cfg, plan, visited, r, front);
      CheckedSteps(tokens, cfg, plan, visited, r, last);
      forall i | 0 <= i < |p| ensures StepsForward(cfg, visited, p[i]) {
        if i < |p| - 1 {
          assert p[i] == front[i];
        }
      }
      ForwardTarget(cfg, visited, last);
    }
  }

  lemma ForwardTarget(cfg: ControlFlowGraph, visited: set<int>, e: Edge)
    requires StepsForward(cfg, visited, e)
    ensures e.target in visited
  {
  }

  /** Forward runs visit distinct blocks, so they are no longer than the region is large. */
  lemma {:induction false} RunBounded(cfg: ControlFlowGraph, k: int, visited: set<int>, p: seq<Edge>)
    returns (seen: set<int>)
    requires RunFrom(cfg, k, p) && 0 <= k < |cfg.blocks|
    requires forall i :: 0 <= i < |p| ==> StepsForward(cfg, visited, p[i])
    ensures 0 <= Arrived(k, p) < |cfg.blocks|
    ensures seen <= visited && |seen| == |p|
    ensures forall b :: b in seen ==>
              0 <= b < |cfg.blocks| && cfg.blocks[b].start < cfg.blocks[Arrived(k, p)].start
    decreases |p|
  {
    if p == [] {
      seen := {};
    } else {
      hide RunFrom;
      var front, last := p[..|p| - 1], p[|p| - 1];
      RunFront(cfg, k, p);
      seen := RunBounded(cfg, k, visited, front);
      assert StepsForward(cfg, visited, last);
      assert last.source !in seen;
      seen := seen + {last.source};
    }
  }

  lemma ExitFacts(tokens: seq<Instruction>, cfg: ControlFlowGraph, plan: ConditionPlan,
                  visited: set<int>, r: EpiloguePlan, k: int)
    requires cfg.WellFormed() && Checked(tokens, cfg, plan, visited, r) && k in visited
    ensures k in r.exitBlocks <==> forall e :: e in cfg.edges ==> e.source != k
    ensures k in r.exitBlocks ==> exists pair :: OwnedPair(tokens, cfg, r, pair, k)
  {
    forall e | e in cfg.edges && e.source == k ensures e in cfg.NormalFrom(k) {
    }
    forall e | e in cfg.NormalFrom(k) ensures e in cfg.edges && e.source == k {
    }
    if cfg.NormalFrom(k) != [] {
      assert cfg.NormalFrom(k)[0] in cfg.NormalFrom(k);
    }
  }

  lemma CheckedRunReturnsNone(tokens: seq<Instruction>, cfg: ControlFlowGraph, plan: ConditionPlan,
                              visited: set<int>, r: EpiloguePlan, p: seq<Edge>)
    requires cfg.WellFormed() && Checked(tokens, cfg, plan, visited, r)
    requires RunFrom(cfg, cfg.offsetToBlock[plan.entryOffset], p)
    ensures |p| < |visited|
    ensures forall i :: 0 <= i < |p| ==> StepsForward(cfg, visited, p[i])
    ensures var k := Arrived(cfg.offsetToBlock[plan.entryOffset], p);
            && (k in r.exitBlocks <==> forall e :: e in cfg.edges ==> e.source != k)
            && (k in r.exitBlocks ==> exists pair :: OwnedPair(tokens, cfg, r, pair, k))
  {
    hide RunFrom, StepsForward, OwnedPair, Forward, Isolated;
    var k := Arrived(cfg.offsetToBlock[plan.entryOffset], p);
    RunStays(tokens, cfg, plan, visited, r, p);
    var seen := RunBounded(cfg, cfg.offsetToBlock[plan.entryOffset], visited, p);
    assert k !in seen;
    SubsetSize(seen + {k}, visited);
    ExitFacts(tokens, cfg, plan, visited, r, k);
  }

  /**
   If a plan is returned, every run from its entry block moves strictly forward on normal edges
   and has fewer steps than the region has blocks. It can always continue until it stops in an
   exit block, where a return of None that the plan owns is the only thing left to do.
   */
  lemma EveryRunReturnsNone(context: CodeContext, tokens: seq<Instruction>, cfg: ControlFlowGraph, plan: ConditionPlan,
                            regionEnd: int, body: int, r: EpiloguePlan, p: seq<Edge>)
    requires cfg.WellFormed() && Acceptable(context, tokens, cfg, plan, regionEnd, body)
    requires Describes(tokens, cfg, plan, body, r)
    requires RunFrom(cfg, cfg.offsetToBlock[plan.entryOffset], p)
    ensures var entry := cfg.offsetToBlock[plan.entryOffset];
            var k := Arrived(entry, p);
            && |p| < |NormalRegion(cfg, entry)|
            && (forall i :: 0 <= i < |p| ==> StepsForward(cfg, NormalRegion(cfg, entry), p[i]))
            && (k in r.exitBlocks <==> forall e :: e in cfg.edges ==> e.source != k)
            && (k in r.exitBlocks ==> exists pair :: OwnedPair(tokens, cfg, r, pair, k))
  {
    hide Checked, RegionFits, PairsPlaced, SplitsAt, Describes, RunFrom, StepsForward, OwnedPair;
    AcceptedIsChecked(context, tokens, cfg, plan, regionEnd, body, r);
    CheckedRunReturnsNone(tokens, cfg, plan, NormalRegion(cfg, cfg.offsetToBlock[plan.entryOffset]), r, p);
  }

  /** In a graph built from the tokens, the return a plan owns is the last instruction of its block. */
  lemma OwnedReturnIsLast(tokens: seq<Instruction>, regions: seq<Region>, cfg: ControlFlowGraph, r: EpiloguePlan,
                          pair: (int, int), k: int)
    requires tokens != [] && Built(tokens, regions, cfg) && cfg.WellFormed() && OwnedPair(tokens, cfg, r, pair, k)
    ensures LastOf(cfg.blocks[k]) == tokens[pair.1]
  {
    hide IsPair, Owns, BlockEdge, BlockFlow, LeaderCuts, IsBlock, Locates;
    ReturnIsTerminator(tokens, pair);
    TransferIsLast(tokens, regions, cfg.blocks, cfg.offsetToBlock, pair.1);
  }

  lemma ReturnIsTerminator(tokens: seq<Instruction>, pair: (int, int))
    requires IsPair(tokens, pair)
    ensures 0 <= pair.1 < |tokens| && Terminator(tokens[pair.1].kind)
  {
  }

  lemma TransferIsLast(tokens: seq<Instruction>, regions: seq<Region>, blocks: seq<BasicBlock>,
                       offsetToBlock: map<int, int>, i: int)
    requires tokens != [] && Tiles(tokens, LeaderCuts(tokens, regions), blocks)
    requires Locates(tokens, LeaderCuts(tokens, regions), offsetToBlock)
    requires 0 <= i < |tokens| && Terminator(tokens[i].kind)
    ensures tokens[i].offset in offsetToBlock && 0 <= offsetToBlock[tokens[i].offset] < |blocks|
    ensures blocks[offsetToBlock[tokens[i].offset]].instructions != []
    ensures LastOf(blocks[offsetToBlock[tokens[i].offset]]) == tokens[i]
  {
    hide LeaderCuts, IsBlock, Locates;
    var cuts := LeaderCuts(tokens, regions);
    var k := BlockOf(tokens, cuts, i);
    LocatesAt(tokens, cuts, offsetToBlock, i);
    TiledLast(tokens, cuts, blocks, k);
    if i + 1 < Stop(tokens, cuts, k) {
      BlockUnique(tokens, cuts, i + 1, k, BlockOf(tokens, cuts, i + 1));
      OnlyLastTransfers(tokens, regions, i);
    }
  }
}
