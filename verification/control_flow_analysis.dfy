/** The whole analysis of one control-flow graph, and what it means for a graph rooted at its entry. */
module ControlFlowAnalyses {
  import opened Options
  import opened Graphs
  import opened Sets
  import opened Sorting
  import opened FixedPoints
  import opened Immediates
  import opened NaturalLoops
  import opened StrongComponents

  datatype ControlFlowAnalysis = ControlFlowAnalysis(
    dominators: Solution,
    immediateDominators: map<int, Option<int>>,
    postDominators: Solution,
    immediatePostDominators: map<int, Option<int>>,
    backEdges: seq<(int, int)>,
    loops: seq<NaturalLoop>)

  /** The rejection: a cyclic component and its several entries. */
  datatype Irreducible = Irreducible(component: set<int>, entryEdges: seq<Edge>, entries: set<int>)

  datatype Outcome = Analyzed(analysis: ControlFlowAnalysis) | Rejected(reason: Irreducible)

  // ---------- the multi-entry rejection ----------

  function Entering(edges: seq<Edge>, nodes: set<int>, c: set<int>): (r: seq<Edge>)
    ensures forall e :: e in r <==> e in edges && e.source in nodes && e.target in c && e.source !in c
  {
    if edges == [] then [] else
      var e := edges[0];
      (if e.source in nodes && e.target in c && e.source !in c then [e] else []) + Entering(edges[1..], nodes, c)
  }

  function EntryTargets(g: Graph, c: set<int>): set<int> {
    set e | e in Entering(g.edges, g.nodes, c) :: e.target
  }

  predicate Cyclic(g: Graph, c: set<int>)
    requires c != {}
  {
    |c| > 1 || Min(c) in g.Successors(Min(c))
  }

  /** The guarantee is per component: cycles nested inside a single-entry component are not examined. */
  ghost predicate SingleEntry(g: Graph) {
    forall c :: IsComponent(g.Out(), c) ==> FewEntries(g, c)
  }

  ghost predicate FewEntries(g: Graph, c: set<int>) {
    c != {} && Cyclic(g, c) ==> |EntryTargets(g, c)| <= 1
  }

  lemma ListedSuffice(g: Graph, components: seq<set<int>>)
    requires Partitions(components, g.nodes)
    requires forall c :: c in components ==> IsComponent(g.Out(), c)
    requires forall c :: c in components ==> FewEntries(g, c)
    ensures SingleEntry(g)
  {
    forall c | IsComponent(g.Out(), c) ensures FewEntries(g, c) {
      ComponentListed(g, components, c);
    }
  }

  lemma ComponentListed(g: Graph, components: seq<set<int>>, c: set<int>)
    requires Partitions(components, g.nodes) && IsComponent(g.Out(), c)
    requires forall d :: d in components ==> IsComponent(g.Out(), d)
    ensures c in components
  {
    var u := Pick(c);
    var i :| 0 <= i < |components| && u in components[i];
    assert components[i] in components;
    forall v ensures v in c <==> v in components[i] {
      if v in c || v in components[i] {
        assert v in g.nodes;
        assert v in c <==> Mutual(g.Out(), u, v);
        assert v in components[i] <==> Mutual(g.Out(), u, v);
      }
    }
    Extensional(c, components[i]);
  }

  lemma ListedRefutes(g: Graph, c: set<int>)
    requires IsComponent(g.Out(), c) && !FewEntries(g, c)
    ensures !SingleEntry(g)
  {
  }

  // ---------- the rejection in terms of edges and walks ----------

  /** A component is cyclic exactly when some step inside it can be walked back. */
  lemma CyclicMeans(g: Graph, c: set<int>)
    requires IsComponent(g.Out(), c)
    ensures Cyclic(g, c) <==> exists u, v :: u in c && v in c && Step(g.Out(), u, v) && Reaches(g.Out(), v, u)
  {
    var out := g.Out();
    if |c| > 1 {
      var u := Min(c);
      var w := PickOther(c, u);
      assert Mutual(out, u, w);
      var v := FirstStep(out, u, w);
      ConnectsTrans(out, v, w, u, {});
      ConnectsStep(out, u, v, {});
      assert Mutual(out, u, v);
    } else {
      var u := Min(c);
      SoleMember(c, u);
      assert u in g.Successors(u) <==> Step(out, u, u);
      ConnectsSelf(out, u, {});
    }
  }

  /** The first step of a walk to another node. */
  lemma FirstStep(arcs: Arcs, u: int, w: int) returns (v: int)
    requires Reaches(arcs, u, w) && u != w
    ensures Step(arcs, u, v) && Reaches(arcs, v, w)
  {
    var p :| Walk(arcs, p, u, w, {});
    v := p[1];
    assert Step(arcs, p[0], p[1]);
    WalkSuffix(arcs, p, u, w, {}, 1);
  }

  /** v can be left and come back to along edges between reachable blocks. */
  ghost predicate OnCycle(g: Graph, v: int) {
    exists e :: e in g.edges && e.source == v && v in g.nodes && e.target in g.nodes && Reaches(g.Out(), e.target, v)
  }

  /** A reachable edge into the blocks that v reaches and that reach v, from outside them. */
  ghost predicate EntersAround(g: Graph, v: int, e: Edge) {
    && e in g.edges && e.source in g.nodes && e.target in g.nodes
    && Mutual(g.Out(), v, e.target) && !Mutual(g.Out(), v, e.source)
  }

  /** Around each block on a cycle, all entering edges arrive at the same block. */
  ghost predicate EnteredOnce(g: Graph) {
    forall v, e, d :: OnCycle(g, v) && EntersAround(g, v, e) && EntersAround(g, v, d) ==> e.target == d.target
  }

  /** The class of mutual reachability of a reachable block is a component. */
  lemma ClassIsComponent(g: Graph, v: int) returns (c: set<int>)
    requires v in g.nodes
    ensures IsComponent(g.Out(), c) && v in c
    ensures forall w :: w in c <==> w in g.nodes && Mutual(g.Out(), v, w)
  {
    var out := g.Out();
    c := set w | w in g.nodes && Mutual(out, v, w);
    ConnectsSelf(out, v, {});
    forall u, w | u in c && w in out ensures w in c <==> Mutual(out, u, w) {
      MutualTrans(out, v, u, w);
      MutualTrans(out, u, v, w);
    }
    Subset(c, out.Keys);
  }

  lemma MutualTrans(arcs: Arcs, u: int, v: int, w: int)
    requires Mutual(arcs, u, v)
    ensures Mutual(arcs, v, w) ==> Mutual(arcs, u, w)
    ensures Mutual(arcs, v, u)
  {
    if Mutual(arcs, v, w) {
      ConnectsTrans(arcs, u, v, w, {});
      ConnectsTrans(arcs, w, v, u, {});
    }
  }

  lemma StepIsEdge(g: Graph, u: int, v: int)
    ensures Step(g.Out(), u, v) <==>
              u in g.nodes && v in g.nodes && exists e :: e in g.edges && e.source == u && e.target == v
  {
  }

  /** The blocks of a component are on a cycle, or it has a single block that is not. */
  lemma OnCycleMeans(g: Graph, c: set<int>, v: int)
    requires IsComponent(g.Out(), c) && v in c
    ensures OnCycle(g, v) <==> Cyclic(g, c)
  {
    var out := g.Out();
    CyclicMeans(g, c);
    if OnCycle(g, v) {
      var e :| e in g.edges && e.source == v && v in g.nodes && e.target in g.nodes && Reaches(out, e.target, v);
      StepIsEdge(g, v, e.target);
      ConnectsStep(out, v, e.target, {});
      assert Mutual(out, v, e.target);
    }
    if u, w :| u in c && w in c && Step(out, u, w) && Reaches(out, w, u) {
      var x := w;
      if u != v {
        assert Mutual(out, v, u);
        x := FirstStep(out, v, u);
        ConnectsTrans(out, x, u, v, {});
      }
      StepIsEdge(g, v, x);
    }
  }

  lemma EntryTargetsMean(g: Graph, c: set<int>, v: int, t: int)
    requires IsComponent(g.Out(), c) && v in c
    ensures t in EntryTargets(g, c) <==> exists e :: EntersAround(g, v, e) && e.target == t
  {
    if t in EntryTargets(g, c) {
      var e :| e in Entering(g.edges, g.nodes, c) && e.target == t;
      assert EntersAround(g, v, e);
    }
    if e :| EntersAround(g, v, e) && e.target == t {
      assert e in Entering(g.edges, g.nodes, c);
    }
  }

  lemma FewEntriesMeans(g: Graph, c: set<int>, v: int)
    requires IsComponent(g.Out(), c) && v in c
    ensures |EntryTargets(g, c)| <= 1 <==>
              forall e, d :: EntersAround(g, v, e) && EntersAround(g, v, d) ==> e.target == d.target
  {
    hide EntersAround, EntryTargets, IsComponent;
    var targets := EntryTargets(g, c);
    if |targets| <= 1 {
      forall e, d | EntersAround(g, v, e) && EntersAround(g, v, d) ensures e.target == d.target {
        EntryTargetsMean(g, c, v, e.target);
        EntryTargetsMean(g, c, v, d.target);
        SoleMember(targets, e.target);
      }
    } else {
      var t := Pick(targets);
      var u := PickOther(targets, t);
      EntryTargetsMean(g, c, v, t);
      EntryTargetsMean(g, c, v, u);
    }
  }

  /** The guarantee, in terms of edges and walks alone. */
  lemma SingleEntryMeans(g: Graph)
    ensures SingleEntry(g) <==> EnteredOnce(g)
  {
    hide EntersAround, EntryTargets, IsComponent, Cyclic, OnCycle;
    if SingleEntry(g) {
      forall v, e, d | OnCycle(g, v) && EntersAround(g, v, e) && EntersAround(g, v, d) ensures e.target == d.target {
        CycleReached(g, v);
        var c := ClassIsComponent(g, v);
        OnCycleMeans(g, c, v);
        FewEntriesMeans(g, c, v);
      }
    }
    if EnteredOnce(g) {
      forall c | IsComponent(g.Out(), c) ensures FewEntries(g, c) {
        ComponentNonempty(g, c);
        var v := Pick(c);
        OnCycleMeans(g, c, v);
        FewEntriesMeans(g, c, v);
      }
    }
  }

  lemma CycleReached(g: Graph, v: int)
    requires OnCycle(g, v)
    ensures v in g.nodes
  {
  }

  lemma ComponentNonempty(g: Graph, c: set<int>)
    requires IsComponent(g.Out(), c)
    ensures c != {}
  {
  }

  /** A rejection carries the component, its entry edges and their several targets. */
  ghost predicate Reports(g: Graph, r: Irreducible, c: set<int>) {
    && r.component == c
    && r.entryEdges == Entering(g.edges, g.nodes, c)
    && r.entries == EntryTargets(g, c)
    && |r.entries| > 1
  }

  /** What a rejection shows: a class of blocks on cycles, its entering edges, and two targets among them. */
  ghost predicate Witnesses(g: Graph, r: Irreducible) {
    && r.component != {}
    && (forall v :: v in r.component ==> v in g.nodes && OnCycle(g, v))
    && (forall v, w :: v in r.component && w in g.nodes ==> (w in r.component <==> Mutual(g.Out(), v, w)))
    && (forall v, e :: v in r.component ==> (e in r.entryEdges <==> EntersAround(g, v, e)))
    && (forall t :: t in r.entries <==> exists e :: e in r.entryEdges && e.target == t)
    && exists e, d :: e in r.entryEdges && d in r.entryEdges && e.target != d.target
  }

  lemma ReportWitnesses(g: Graph, r: Irreducible)
    requires IsComponent(g.Out(), r.component) && Cyclic(g, r.component) && Reports(g, r, r.component)
    ensures Witnesses(g, r)
  {
    hide Entering, EntryTargets;
    var c := r.component;
    forall v | v in c ensures v in g.nodes && OnCycle(g, v) {
      OnCycleMeans(g, c, v);
    }
    hide Cyclic, OnCycle, EntersAround;
    forall v, e | v in c ensures e in r.entryEdges <==> EntersAround(g, v, e) {
      EnteringMeans(g, c, v, e);
    }
    TwoTargets(g, c);
  }

  lemma TwoTargets(g: Graph, c: set<int>)
    ensures forall t :: t in EntryTargets(g, c) <==> exists e :: e in Entering(g.edges, g.nodes, c) && e.target == t
    ensures |EntryTargets(g, c)| > 1 ==>
              exists e, d ::
                e in Entering(g.edges, g.nodes, c) && d in Entering(g.edges, g.nodes, c) && e.target != d.target
  {
    var edges, targets := Entering(g.edges, g.nodes, c), EntryTargets(g, c);
    if |targets| > 1 {
      var t := Pick(targets);
      var u := PickOther(targets, t);
      var e :| e in edges && e.target == t;
      var d :| d in edges && d.target == u;
    }
  }

  lemma EnteringMeans(g: Graph, c: set<int>, v: int, e: Edge)
    requires IsComponent(g.Out(), c) && v in c
    ensures e in Entering(g.edges, g.nodes, c) <==> EntersAround(g, v, e)
  {
  }

  /** Rejects exactly the graphs in which some cyclic component can be entered at two blocks. */
  method EnsureReducible(g: Graph) returns (r: Option<Irreducible>)
    ensures r == None <==> SingleEntry(g)
    ensures r == None <==> EnteredOnce(g)
    ensures r.Some? ==> Witnesses(g, r.value)
    ensures r.Some? ==> IsComponent(g.Out(), r.value.component) && Cyclic(g, r.value.component)
                        && Reports(g, r.value, r.value.component)
  {
    var components := Components(g);
    SingleEntryMeans(g);
    r := FirstOffender(g, components);
    if r == None {
      ListedSuffice(g, components);
    } else {
      ListedRefutes(g, r.value.component);
      ReportWitnesses(g, r.value);
    }
  }

  method FirstOffender(g: Graph, components: seq<set<int>>) returns (r: Option<Irreducible>)
    requires forall c :: c in components ==> c != {}
    ensures match r
            case None => forall c :: c in components ==> FewEntries(g, c)
            case Some(i) => i.component in components && Cyclic(g, i.component) && Reports(g, i, i.component)
  {
    for i := 0 to |components|
      invariant forall k :: 0 <= k < i ==> FewEntries(g, components[k])
    {
      assert components[i] in components;
      r := CheckComponent(g, components[i]);
      if r.Some? {
        return;
      }
    }
    r := None;
  }

  method CheckComponent(g: Graph, component: set<int>) returns (r: Option<Irreducible>)
    requires component != {}
    ensures r == None <==> FewEntries(g, component)
    ensures r.Some? ==> Cyclic(g, component) && Reports(g, r.value, component)
  {
    var first := Min(component);
    var cyclic := |component| > 1 || first in g.Successors(first);
    if !cyclic {
      return None;
    }
    var entryEdges := Entering(g.edges, g.nodes, component);
    var entries := EntryTargets(g, component);
    r := if |entries| > 1 then Some(Irreducible(component, entryEdges, entries)) else None;
  }

  // ---------- the analysis ----------

  function BackEdges(edges: seq<Edge>, dominators: Solution): (r: seq<(int, int)>)
    ensures forall l, h :: (l, h) in r <==>
              exists e :: e in edges && e.source == l && e.target == h && l in dominators && h in dominators[l]
  {
    if edges == [] then [] else
      var e := edges[0];
      (if e.source in dominators && e.target in dominators[e.source] then [(e.source, e.target)] else [])
      + BackEdges(edges[1..], dominators)
  }

  ghost predicate DescribesLoop(arcs: Arcs, backEdge: (int, int), loop: NaturalLoop) {
    && loop.latch == backEdge.0 && loop.header == backEdge.1
    && forall v :: v in loop.blocks <==> InLoop(arcs, loop.latch, loop.header, v)
  }

  /** Everything the analysis computes, stated outright. */
  ghost predicate Describes(g: Graph, a: ControlFlowAnalysis) {
    && IsSolution(Parents(g, false), Roots(g, false), a.dominators)
    && IsSolution(Parents(g, true), Roots(g, true), a.postDominators)
    && AreImmediates(a.dominators, a.immediateDominators)
    && AreImmediates(a.postDominators, a.immediatePostDominators)
    && a.backEdges == BackEdges(g.edges, a.dominators)
    && |a.loops| == |a.backEdges|
    && forall i :: 0 <= i < |a.loops| ==> DescribesLoop(g.In(), a.backEdges[i], a.loops[i])
  }

  method CollectLoops(g: Graph, dominators: Solution, backEdges: seq<(int, int)>) returns (loops: seq<NaturalLoop>)
    requires dominators.Keys == g.nodes && forall n :: n in g.nodes ==> dominators[n] <= g.nodes
    requires backEdges == BackEdges(g.edges, dominators)
    ensures |loops| == |backEdges|
    ensures forall i :: 0 <= i < |loops| ==> DescribesLoop(g.In(), backEdges[i], loops[i])
  {
    loops := [];
    for i := 0 to |backEdges|
      invariant |loops| == i
      invariant forall k :: 0 <= k < i ==> DescribesLoop(g.In(), backEdges[k], loops[k])
    {
      var (latch, header) := backEdges[i];
      assert (latch, header) in backEdges;
      var blocks := Collect(g, latch, header);
      loops := loops + [NaturalLoop(header, latch, blocks)];
    }
  }

  method AnalyzeControlFlow(g: Graph) returns (r: Outcome)
    ensures r.Analyzed? <==> SingleEntry(g)
    ensures r.Analyzed? <==> EnteredOnce(g)
    ensures r.Rejected? ==> Witnesses(g, r.reason)
    ensures r.Analyzed? ==> Describes(g, r.analysis)
    ensures r.Rejected? ==> IsComponent(g.Out(), r.reason.component) && Cyclic(g, r.reason.component)
                            && Reports(g, r.reason, r.reason.component)
  {
    var irreducible := EnsureReducible(g);
    if irreducible.Some? {
      return Rejected(irreducible.value);
    }
    var analysis := Analyses(g);
    r := Analyzed(analysis);
  }

  lemma SetsSolve(g: Graph, reverse: bool, sets: Solution)
    requires sets.Keys == g.nodes
    requires forall n :: n in g.nodes ==> sets[n] == MustSet(Parents(g, reverse), Roots(g, reverse), n)
    ensures IsSolution(Parents(g, reverse), Roots(g, reverse), sets)
    ensures forall n :: n in sets ==> sets[n] <= sets.Keys
  {
    GraphTransposed(g);
  }

  /** The sets, immediates and loops, whether or not the graph is accepted. */
  method Analyses(g: Graph) returns (a: ControlFlowAnalysis)
    ensures Describes(g, a)
  {
    hide IsSolution, MustSet, Parents, Roots, IsImmediate, DescribesLoop;
    var dominators := FixedPointSets(g);
    SetsSolve(g, false, dominators);
    var postDominators := FixedPointSets(g, true);
    SetsSolve(g, true, postDominators);
    var backEdges := BackEdges(g.edges, dominators);
    var loops := CollectLoops(g, dominators, backEdges);
    var immediateDominators := Immediate(dominators);
    var immediatePostDominators := Immediate(postDominators);
    a := ControlFlowAnalysis(dominators, immediateDominators, postDominators, immediatePostDominators,
                             backEdges, loops);
  }

  // ---------- what the loops mean ----------

  /** The facts about one recorded loop that the theorems start from. */
  lemma LoopFacts(g: Graph, a: ControlFlowAnalysis, i: nat)
    requires Describes(g, a) && i < |a.loops|
    ensures a.loops[i].latch in g.nodes && a.loops[i].header in g.nodes
    ensures MustPass(g.In(), {g.entry}, a.loops[i].latch, a.loops[i].header)
    ensures Step(g.In(), a.loops[i].header, a.loops[i].latch)
    ensures Step(g.Out(), a.loops[i].latch, a.loops[i].header)
    ensures forall v :: v in a.loops[i].blocks <==> InLoop(g.In(), a.loops[i].latch, a.loops[i].header, v)
    ensures a.loops[i].blocks <= g.nodes
  {
    GraphTransposed(g);
    var loop := a.loops[i];
    assert DescribesLoop(g.In(), a.backEdges[i], loop);
    assert (loop.latch, loop.header) in a.backEdges;
    var e :| e in g.edges && e.source == loop.latch && e.target == loop.header
             && loop.latch in a.dominators && loop.header in a.dominators[loop.latch];
    assert loop.header in g.Successors(loop.latch);
    forall v | v in loop.blocks ensures v in g.nodes {
      if v != loop.header {
        var p :| Walk(g.In(), p, loop.latch, v, {loop.header});
        WalkInside(g.In(), p, loop.latch, v, {loop.header});
      }
    }
    Subset(loop.blocks, g.nodes);
  }

  /** Each header dominates its loop, and reachable edges enter a loop only at the header. */
  lemma LoopsAreNatural(g: Graph, a: ControlFlowAnalysis, i: nat)
    requires Describes(g, a) && g.Rooted() && g.entry in g.nodes && i < |a.loops|
    ensures forall v :: v in a.loops[i].blocks ==> Dominates(g, a.loops[i].header, v)
    ensures forall e :: e in g.edges && e.source in g.nodes - a.loops[i].blocks && e.target in a.loops[i].blocks
                        ==> e.target == a.loops[i].header
  {
    LoopFacts(g, a, i);
    var loop := a.loops[i];
    forall v | v in loop.blocks ensures Dominates(g, loop.header, v) {
      HeaderDominatesMembers(g.In(), {g.entry}, loop.latch, loop.header, v);
      MustPassIsDominance(g, loop.header, v);
    }
    forall e | e in g.edges && e.source in g.nodes - loop.blocks && e.target in loop.blocks
      ensures e.target == loop.header
    {
      assert e.source in g.Predecessors(e.target);
      LoopEntry(g.In(), loop.latch, loop.header, e.target, e.source);
    }
  }

  /** Loops with different headers are disjoint or nested. */
  lemma LoopsAreNested(g: Graph, a: ControlFlowAnalysis, i: nat, j: nat)
    requires Describes(g, a) && g.Rooted() && g.entry in g.nodes && i < |a.loops| && j < |a.loops|
    requires a.loops[i].header != a.loops[j].header
    ensures a.loops[i].blocks !! a.loops[j].blocks
            || a.loops[i].blocks <= a.loops[j].blocks
            || a.loops[j].blocks <= a.loops[i].blocks
  {
    LoopFacts(g, a, i);
    LoopFacts(g, a, j);
    forall v | v in a.loops[i].blocks + a.loops[j].blocks ensures Escapes(g.In(), {g.entry}, v, {}) {
      RootedEscapes(g, v);
    }
    LoopsNest(g.In(), {g.entry}, a.loops[i], a.loops[j]);
  }

  // ---------- every cyclic component is the union of the loops of one header ----------

  /** A walk into a component from outside crosses one of its entry edges. */
  lemma EntersAtTarget(g: Graph, c: set<int>, p: seq<int>, v: int, x: set<int>)
    requires Walk(g.Out(), p, g.entry, v, x) && g.entry in g.nodes - c && v in c
    ensures exists h :: h in EntryTargets(g, c) && h in p
  {
    GraphTransposed(g);
    WalkInside(g.Out(), p, g.entry, v, x);
    var i := FirstVisit(p, c);
    assert Step(g.Out(), p[i - 1], p[i]);
    var e :| e in g.edges && e.source == p[i - 1] && e.target == p[i];
    assert e in Entering(g.edges, g.nodes, c);
    assert p[i] in EntryTargets(g, c);
  }

  /** No external edge enters the component of the graph entry. */
  lemma EntryComponentClosed(g: Graph, c: set<int>)
    requires g.Rooted() && IsComponent(g.Out(), c) && g.entry in c
    ensures EntryTargets(g, c) == {}
  {
    forall h ensures h !in EntryTargets(g, c) {
      if h in EntryTargets(g, c) {
        var e :| e in Entering(g.edges, g.nodes, c) && e.target == h;
        assert h in g.Successors(e.source);
        ConnectsStep(g.Out(), e.source, h, {});
        assert Mutual(g.Out(), g.entry, h);
        ConnectsTrans(g.Out(), e.source, h, g.entry, {});
        assert Mutual(g.Out(), g.entry, e.source);
        assert false;
      }
    }
    Extensional(EntryTargets(g, c), {});
  }

  lemma SoleMember(s: set<int>, h: int)
    requires |s| <= 1 && h in s
    ensures s == {h}
  {
    SubsetSize({h}, s);
  }

  /** The single entry of a component dominates it. */
  lemma ComponentHeader(g: Graph, c: set<int>) returns (h: int)
    requires g.Rooted() && g.entry in g.nodes && IsComponent(g.Out(), c) && |EntryTargets(g, c)| <= 1
    ensures h in c && forall v :: v in c ==> Dominates(g, h, v)
    ensures if g.entry in c then h == g.entry && EntryTargets(g, c) == {} else EntryTargets(g, c) == {h}
  {
    if g.entry in c {
      h := g.entry;
      EntryComponentClosed(g, c);
      forall v ensures !Connects(g.Out(), g.entry, v, {h}) {
        ConnectsBlocked(g.Out(), g.entry, v, {h});
      }
    } else {
      var v := Pick(c);
      var p :| Walk(g.Out(), p, g.entry, v, {});
      EntersAtTarget(g, c, p, v, {});
      h :| h in EntryTargets(g, c) && h in p;
      SoleMember(EntryTargets(g, c), h);
      forall w | w in c ensures Dominates(g, h, w) {
        if !Dominates(g, h, w) {
          var q :| Walk(g.Out(), q, g.entry, w, {h});
          EntersAtTarget(g, c, q, w, {h});
          assert false;
        }
      }
    }
  }

  /** A dominator of v reaches v. */
  lemma DominatorReaches(g: Graph, h: int, v: int)
    requires g.Rooted() && v in g.nodes && Dominates(g, h, v)
    ensures Reaches(g.Out(), h, v)
  {
    var out := g.Out();
    var p :| Walk(out, p, g.entry, v, {});
    assert h in p by {
      if h !in p {
        assert Walk(out, p, g.entry, v, {h});
      }
    }
    var k :| 0 <= k < |p| && p[k] == h;
    WalkSuffix(out, p, g.entry, v, {}, k);
  }

  /** A loop member reaches the header through the latch. */
  lemma MemberReaches(g: Graph, latch: int, header: int, v: int)
    requires latch in g.nodes && Step(g.Out(), latch, header) && InLoop(g.In(), latch, header, v)
    ensures Reaches(g.Out(), v, header)
  {
    if v == header {
      ConnectsSelf(g.Out(), v, {});
    } else {
      GraphTransposed(g);
      ConnectsWeaken(g.In(), latch, v, {header}, {});
      WalkReverse(g.In(), g.Out(), latch, v, {});
      ConnectsStep(g.Out(), latch, header, {});
      ConnectsTrans(g.Out(), v, latch, header, {});
    }
  }

  /** A member of a loop and the header reach each other. */
  lemma LoopMemberMutual(g: Graph, a: ControlFlowAnalysis, i: nat, v: int)
    requires Describes(g, a) && g.Rooted() && g.entry in g.nodes && i < |a.loops|
    requires v in a.loops[i].blocks
    ensures Mutual(g.Out(), a.loops[i].header, v)
  {
    LoopFacts(g, a, i);
    LoopsAreNatural(g, a, i);
    MemberReaches(g, a.loops[i].latch, a.loops[i].header, v);
    DominatorReaches(g, a.loops[i].header, v);
  }

  /** A back edge to h is recorded, together with its loop. */
  lemma BackEdgeRecorded(g: Graph, a: ControlFlowAnalysis, l: int, h: int) returns (i: nat)
    requires Describes(g, a) && g.Rooted() && g.entry in g.nodes
    requires Step(g.Out(), l, h) && Dominates(g, h, l)
    ensures i < |a.loops| && a.loops[i].latch == l && a.loops[i].header == h
  {
    MustPassIsDominance(g, h, l);
    var e :| e in g.edges && e.source == l && e.target == h;
    assert h in a.dominators[l];
    assert (l, h) in a.backEdges;
    i :| 0 <= i < |a.backEdges| && a.backEdges[i] == (l, h);
    assert DescribesLoop(g.In(), a.backEdges[i], a.loops[i]);
  }

  /** A component member other than the header lies in one of the header's loops. */
  lemma MemberInLoop(g: Graph, a: ControlFlowAnalysis, c: set<int>, h: int, v: int) returns (i: nat)
    requires Describes(g, a) && g.Rooted() && g.entry in g.nodes && IsComponent(g.Out(), c)
    requires h in c && v in c && v != h && forall w :: w in c ==> Dominates(g, h, w)
    ensures i < |a.loops| && a.loops[i].header == h && v in a.loops[i].blocks && h in a.loops[i].blocks
  {
    hide Describes, Dominates, Transposed;
    GraphTransposed(g);
    var out := g.Out();
    assert Mutual(out, h, v);
    var p :| Walk(out, p, v, h, {});
    var k := FirstVisit(p, {h});
    var l := p[k - 1];
    assert Step(out, p[k - 1], p[k]);
    WalkPrefix(out, p, v, h, {}, k - 1);
    var q := p[..k - 1 + 1];
    assert Walk(out, q, v, l, {h});
    ConnectsWeaken(out, v, l, {h}, {});
    ConnectsTrans(out, h, v, l, {});
    ConnectsStep(out, l, h, {});
    assert Mutual(out, h, l);
    i := BackEdgeRecorded(g, a, l, h);
    WalkReverse(out, g.In(), v, l, {h});
    LoopFacts(g, a, i);
  }

  /**
   When the analysis accepts a rooted graph, each cyclic component has one block that
   dominates it (its only external entry, or the entry of the graph), and the natural loops
   with that header cover exactly the component.
   */
  lemma ComponentIsUnionOfLoops(g: Graph, a: ControlFlowAnalysis, c: set<int>) returns (h: int)
    requires Describes(g, a) && g.Rooted() && g.entry in g.nodes && SingleEntry(g)
    requires IsComponent(g.Out(), c) && Cyclic(g, c)
    ensures h in c && forall v :: v in c ==> Dominates(g, h, v)
    ensures if g.entry in c then h == g.entry && EntryTargets(g, c) == {} else EntryTargets(g, c) == {h}
    ensures forall v :: v in c <==> exists i :: 0 <= i < |a.loops| && a.loops[i].header == h && v in a.loops[i].blocks
  {
    h := ComponentHeader(g, c);
    forall v, i | 0 <= i < |a.loops| && a.loops[i].header == h && v in a.loops[i].blocks ensures v in c {
      LoopMemberMutual(g, a, i, v);
      LoopFacts(g, a, i);
    }
    forall v | v in c ensures exists i :: 0 <= i < |a.loops| && a.loops[i].header == h && v in a.loops[i].blocks {
      if v != h {
        var i := MemberInLoop(g, a, c, h, v);
      } else {
        var i := HeaderInLoop(g, a, c, h);
      }
    }
  }

  /**
   The same for each block on a cycle, in terms of edges and walks: the blocks it shares a cycle with
   are exactly the loops of one header, which dominates them all.
   */
  lemma CycleIsUnionOfLoops(g: Graph, a: ControlFlowAnalysis, v: int) returns (h: int)
    requires Describes(g, a) && g.Rooted() && g.entry in g.nodes && EnteredOnce(g) && OnCycle(g, v)
    ensures Mutual(g.Out(), v, h)
    ensures forall w :: w in g.nodes && Mutual(g.Out(), v, w) ==> Dominates(g, h, w)
    ensures forall w :: w in g.nodes && Mutual(g.Out(), v, w) <==>
              exists i :: 0 <= i < |a.loops| && a.loops[i].header == h && w in a.loops[i].blocks
  {
    hide Describes, Dominates, Cyclic, EnteredOnce, Mutual;
    CycleReached(g, v);
    SingleEntryMeans(g);
    var c := ClassIsComponent(g, v);
    OnCycleMeans(g, c, v);
    h := ComponentIsUnionOfLoops(g, a, c);
  }

  lemma HeaderInLoop(g: Graph, a: ControlFlowAnalysis, c: set<int>, h: int) returns (i: nat)
    requires Describes(g, a) && g.Rooted() && g.entry in g.nodes && IsComponent(g.Out(), c) && Cyclic(g, c)
    requires h in c && forall w :: w in c ==> Dominates(g, h, w)
    ensures i < |a.loops| && a.loops[i].header == h && h in a.loops[i].blocks
  {
    if |c| > 1 {
      var v := PickOther(c, h);
      i := MemberInLoop(g, a, c, h, v);
    } else {
      SoleMember(c, h);
      i := BackEdgeRecorded(g, a, h, h);
      LoopFacts(g, a, i);
    }
  }
}
