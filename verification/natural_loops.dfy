/** Natural loops: the worklist that collects one, and how loops with different headers relate. */
module NaturalLoops {
  import opened Graphs
  import opened Sets
  import opened FixedPoints
  import opened Immediates

  datatype NaturalLoop = NaturalLoop(header: int, latch: int, blocks: set<int>)

  /** v is the header, or reaches the latch without passing the header. */
  ghost predicate InLoop(arcs: Arcs, latch: int, header: int, v: int) {
    v == header || Connects(arcs, latch, v, {header})
  }

  /** All predecessors of a member other than the header are members. */
  ghost predicate ClosedUpTo(arcs: Arcs, members: set<int>, header: int, pending: seq<int>) {
    forall v, u :: v in members && v != header && v !in pending && Step(arcs, v, u) ==> u in members
  }

  lemma {:induction false} ClosedContains(arcs: Arcs, members: set<int>, header: int, p: seq<int>, u: int, v: int)
    requires ClosedUpTo(arcs, members, header, [])
    requires u in members && Walk(arcs, p, u, v, {header})
    ensures v in members
  {
    if |p| > 1 {
      assert p[0] in p;
      assert Step(arcs, p[0], p[1]);
      WalkSuffix(arcs, p, u, v, {header}, 1);
      ClosedContains(arcs, members, header, p[1..], p[1], v);
    }
  }

  /** Visit the predecessors of one member. */
  method AddPredecessors(g: Graph, node: int, members: set<int>, pending: seq<int>)
    returns (members': set<int>, pending': seq<int>)
    requires node in g.nodes && members <= g.nodes
    ensures members <= members' <= g.nodes
    ensures members' == members + g.In()[node]
    ensures forall v :: v in pending' <==> v in pending || v in members' - members
    ensures members' == members ==> pending' == pending
  {
    members', pending' := members, pending;
    for i := 0 to |g.edges|
      invariant members <= members' <= g.nodes
      invariant forall v :: v in pending' <==> v in pending || v in members' - members
      invariant members' == members ==> pending' == pending
      invariant members' == members + (set e | e in g.edges[..i] && e.target == node :: e.source) * g.nodes
    {
      var edge := g.edges[i];
      assert g.edges[..i + 1] == g.edges[..i] + [edge];
      if edge.target == node {
        var predecessor := edge.source;
        if predecessor in g.nodes && predecessor !in members' {
          members' := members' + {predecessor};
          pending' := pending' + [predecessor];
        }
      }
    }
    assert g.edges[..|g.edges|] == g.edges;
  }

  method Collect(g: Graph, latch: int, header: int) returns (members: set<int>)
    requires latch in g.nodes && header in g.nodes
    ensures forall v :: v in members <==> v == header || InLoop(g.In(), latch, header, v)
  {
    ghost var arcs := g.In();
    members := {header, latch};
    var pending := if latch == header then [] else [latch];
    if latch != header {
      ConnectsSelf(arcs, latch, {header});
    }
    while pending != []
      invariant {header, latch} <= members <= g.nodes
      invariant forall v :: v in pending ==> v in members && v != header
      invariant forall v :: v in members ==> InLoop(arcs, latch, header, v)
      invariant ClosedUpTo(arcs, members, header, pending)
      decreases g.nodes - members, |pending|
    {
      var node := pending[|pending| - 1];
      ghost var before, stack := members, pending;
      pending := pending[..|pending| - 1];
      members, pending := AddPredecessors(g, node, members, pending);
      assert stack == stack[..|stack| - 1] + [node];
      AddedInLoop(arcs, latch, header, before, node, members);
      AddedClosed(arcs, header, before, stack, node, members, pending);
      assert members == before || g.nodes - members < g.nodes - before;
    }
    forall v | InLoop(arcs, latch, header, v) && v != header ensures v in members {
      var p :| Walk(arcs, p, latch, v, {header});
      ClosedContains(arcs, members, header, p, latch, v);
    }
  }

  lemma AddedInLoop(arcs: Arcs, latch: int, header: int, before: set<int>, node: int, after: set<int>)
    requires node in arcs && node in before && node != header && header in before
    requires after == before + arcs[node]
    requires forall v :: v in before ==> InLoop(arcs, latch, header, v)
    ensures forall v :: v in after ==> InLoop(arcs, latch, header, v)
  {
    forall v | v in arcs[node] && v != header ensures InLoop(arcs, latch, header, v) {
      ConnectsStep(arcs, node, v, {header});
      ConnectsTrans(arcs, latch, node, v, {header});
    }
  }

  lemma AddedClosed(arcs: Arcs, header: int, before: set<int>, stack: seq<int>, node: int,
                    after: set<int>, pending: seq<int>)
    requires node in arcs
    requires ClosedUpTo(arcs, before, header, stack)
    requires after == before + arcs[node]
    requires forall v :: v in stack || v in after - before ==> v == node || v in pending
    ensures ClosedUpTo(arcs, after, header, pending)
  {
    forall v, u | v in after && v != header && v !in pending && Step(arcs, v, u) ensures u in after {
    }
  }

  // ---------- loops whose header dominates the latch ----------

  lemma HeaderDominatesMembers(arcs: Arcs, roots: set<int>, latch: int, header: int, v: int)
    requires MustPass(arcs, roots, latch, header) && InLoop(arcs, latch, header, v)
    ensures MustPass(arcs, roots, v, header)
  {
    if v == header {
      MustPassSelf(arcs, roots, v);
    } else if Escapes(arcs, roots, v, {header}) {
      EscapeVia(arcs, roots, latch, v, {header});
    }
  }

  /** Entering a loop from outside is possible only at its header. */
  lemma LoopEntry(arcs: Arcs, latch: int, header: int, v: int, u: int)
    requires InLoop(arcs, latch, header, v) && !InLoop(arcs, latch, header, u) && Step(arcs, v, u)
    ensures v == header
  {
    if v != header {
      ConnectsEnds(arcs, latch, v, {header});
      ConnectsStep(arcs, v, u, {header});
      ConnectsTrans(arcs, latch, v, u, {header});
    }
  }

  /** A walk that avoids h2 from a node that must pass h2 cannot meet a node that escapes h2. */
  lemma AvoidsOuter(arcs: Arcs, roots: set<int>, n: int, w: int, h1: int, h2: int)
    requires Connects(arcs, n, w, {h2}) && MustPass(arcs, roots, n, h2) && Escapes(arcs, roots, h1, {h2})
    ensures Connects(arcs, n, w, {h1})
  {
    var p :| Walk(arcs, p, n, w, {h2});
    if h1 in p {
      var i :| 0 <= i < |p| && p[i] == h1;
      WalkPrefix(arcs, p, n, w, {h2}, i);
      EscapeVia(arcs, roots, n, h1, {h2});
      assert false;
    }
    assert Walk(arcs, p, n, w, {h1});
  }

  /** From a node that must pass both headers, the inner one is met first. */
  lemma InnerFirst(arcs: Arcs, roots: set<int>, v: int, h1: int, h2: int)
    requires Escapes(arcs, roots, v, {}) && MustPass(arcs, roots, v, h2)
    requires Escapes(arcs, roots, h1, {h2}) && h1 != h2
    ensures Connects(arcs, v, h2, {h1})
  {
    var s :| Sink(arcs, roots, s) && Connects(arcs, v, s, {});
    var p :| Walk(arcs, p, v, s, {});
    if h2 !in p {
      assert Walk(arcs, p, v, s, {h2});
    }
    var i := FirstVisit(p, {h1, h2});
    WalkPrefix(arcs, p, v, s, {}, i);
    var q := p[..i + 1];
    if p[i] == h1 {
      assert Walk(arcs, q, v, h1, {h2});
      EscapeVia(arcs, roots, v, h1, {h2});
    } else {
      assert Walk(arcs, q, v, h2, {h1});
    }
  }

  /** With a common member and h1 dominating h2, the loop of h2 lies inside the loop of h1. */
  lemma InnerInside(arcs: Arcs, roots: set<int>, l1: int, h1: int, l2: int, h2: int, v: int, w: int)
    requires h1 != h2 && Escapes(arcs, roots, v, {})
    requires MustPass(arcs, roots, l1, h1) && MustPass(arcs, roots, l2, h2)
    requires Step(arcs, h2, l2)
    requires InLoop(arcs, l1, h1, v) && InLoop(arcs, l2, h2, v)
    requires MustPass(arcs, roots, h2, h1)
    requires InLoop(arcs, l2, h2, w)
    ensures InLoop(arcs, l1, h1, w)
  {
    HeaderDominatesMembers(arcs, roots, l2, h2, v);
    EscapeThrough(arcs, roots, v, h2, {});
    if MustPass(arcs, roots, h1, h2) {
      MustPassAntisymmetric(arcs, roots, h2, h1);
    }
    InnerFirst(arcs, roots, v, h1, h2);
    ConnectsEnds(arcs, v, h2, {h1});
    ConnectsTrans(arcs, l1, v, h2, {h1});
    if w != h2 {
      AvoidsOuter(arcs, roots, l2, w, h1, h2);
      ConnectsEnds(arcs, l2, w, {h1});
      ConnectsStep(arcs, h2, l2, {h1});
      ConnectsTrans(arcs, h2, l2, w, {h1});
      ConnectsTrans(arcs, l1, h2, w, {h1});
    }
  }

  /** Loops with different headers are disjoint or nested. */
  lemma LoopsNest(arcs: Arcs, roots: set<int>, a: NaturalLoop, b: NaturalLoop)
    requires forall v :: v in a.blocks + b.blocks ==> Escapes(arcs, roots, v, {})
    requires forall v :: v in a.blocks <==> InLoop(arcs, a.latch, a.header, v)
    requires forall v :: v in b.blocks <==> InLoop(arcs, b.latch, b.header, v)
    requires MustPass(arcs, roots, a.latch, a.header) && Step(arcs, a.header, a.latch)
    requires MustPass(arcs, roots, b.latch, b.header) && Step(arcs, b.header, b.latch)
    requires a.header != b.header
    ensures a.blocks !! b.blocks || a.blocks <= b.blocks || b.blocks <= a.blocks
  {
    if !(a.blocks !! b.blocks) {
      var v := PickCommon(a.blocks, b.blocks);
      HeaderDominatesMembers(arcs, roots, a.latch, a.header, v);
      HeaderDominatesMembers(arcs, roots, b.latch, b.header, v);
      MustPassTotal(arcs, roots, v, a.header, b.header);
      if MustPass(arcs, roots, b.header, a.header) {
        forall w | w in b.blocks ensures w in a.blocks {
          InnerInside(arcs, roots, a.latch, a.header, b.latch, b.header, v, w);
        }
        Subset(b.blocks, a.blocks);
      } else {
        forall w | w in a.blocks ensures w in b.blocks {
          InnerInside(arcs, roots, b.latch, b.header, a.latch, a.header, v, w);
        }
        Subset(a.blocks, b.blocks);
      }
    }
  }
}
