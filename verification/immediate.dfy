/** The order that must-pass sets form, and the immediate (post-)dominators read off from it. */
module Immediates {
  import opened Options
  import opened Graphs
  import opened Sets
  import opened FixedPoints

  // ---------- must-pass is a partial order, total on the sets of a node that escapes ----------

  /** The first visit of a walk to a set: what leads up to it avoids the rest of the set. */
  lemma FirstVisit(p: seq<int>, hit: set<int>) returns (i: nat)
    requires exists w :: w in p && w in hit
    ensures i < |p| && p[i] in hit
    ensures forall k :: 0 <= k < i ==> p[k] !in hit
  {
    i := 0;
    while p[i] !in hit
      invariant i < |p|
      invariant forall k :: 0 <= k < i ==> p[k] !in hit
      decreases |p| - i
    {
      if i == |p| - 1 {
        assert false;
      }
      i := i + 1;
    }
  }

  /** Walking to c and escaping from c are one escape. */
  lemma EscapeVia(arcs: Arcs, roots: set<int>, n: int, c: int, x: set<int>)
    requires Connects(arcs, n, c, x) && Escapes(arcs, roots, c, x)
    ensures Escapes(arcs, roots, n, x)
  {
    var s :| Sink(arcs, roots, s) && Connects(arcs, c, s, x);
    ConnectsTrans(arcs, n, c, s, x);
  }

  /** An escape of n that avoids x passes every d that n must pass, and d then escapes too. */
  lemma EscapeThrough(arcs: Arcs, roots: set<int>, n: int, d: int, x: set<int>)
    requires MustPass(arcs, roots, n, d) && Escapes(arcs, roots, n, x)
    ensures Escapes(arcs, roots, d, x)
  {
    var s :| Sink(arcs, roots, s) && Connects(arcs, n, s, x);
    var p :| Walk(arcs, p, n, s, x);
    if d !in p {
      assert Walk(arcs, p, n, s, {d});
      assert Connects(arcs, n, s, {d});
      assert false;
    }
    var i :| 0 <= i < |p| && p[i] == d;
    WalkSuffix(arcs, p, n, s, x, i);
  }

  lemma MustPassSelf(arcs: Arcs, roots: set<int>, n: int)
    ensures MustPass(arcs, roots, n, n)
  {
    forall s ensures !Connects(arcs, n, s, {n}) {
      ConnectsBlocked(arcs, n, s, {n});
    }
  }

  lemma MustPassTrans(arcs: Arcs, roots: set<int>, n: int, c: int, d: int)
    requires MustPass(arcs, roots, n, c) && MustPass(arcs, roots, c, d)
    ensures MustPass(arcs, roots, n, d)
  {
    if Escapes(arcs, roots, n, {d}) {
      EscapeThrough(arcs, roots, n, c, {d});
    }
  }

  lemma MustPassTotal(arcs: Arcs, roots: set<int>, n: int, a: int, b: int)
    requires Escapes(arcs, roots, n, {})
    requires MustPass(arcs, roots, n, a) && MustPass(arcs, roots, n, b)
    ensures MustPass(arcs, roots, a, b) || MustPass(arcs, roots, b, a)
  {
    if Escapes(arcs, roots, a, {b}) && Escapes(arcs, roots, b, {a}) {
      var s :| Sink(arcs, roots, s) && Connects(arcs, n, s, {});
      var p :| Walk(arcs, p, n, s, {});
      if a !in p {
        assert Walk(arcs, p, n, s, {a});
      }
      var i := FirstVisit(p, {a, b});
      WalkPrefix(arcs, p, n, s, {}, i);
      var q := p[..i + 1];
      if p[i] == a {
        MustPassSelf(arcs, roots, a);
        assert a != b;
        assert Walk(arcs, q, n, a, {b});
        EscapeVia(arcs, roots, n, a, {b});
      } else {
        assert Walk(arcs, q, n, b, {a});
        EscapeVia(arcs, roots, n, b, {a});
      }
    }
  }

  /** Of two nodes, one escapes without the other. */
  lemma EscapesLast(arcs: Arcs, roots: set<int>, a: int, b: int)
    requires Escapes(arcs, roots, a, {}) && a != b
    ensures Escapes(arcs, roots, a, {b}) || Escapes(arcs, roots, b, {a})
  {
    var s :| Sink(arcs, roots, s) && Connects(arcs, a, s, {});
    var p :| Walk(arcs, p, a, s, {});
    assert p[0] == a;
    var i := LastVisit(arcs, p, a, s, {}, {a, b});
    WalkSuffix(arcs, p, a, s, {}, i);
    var other := if p[i] == a then b else a;
    forall w | w in p[i..] ensures w != other {
      var k :| 0 <= k < |p| - i && p[i..][k] == w;
      assert p[i + k] == w;
    }
    assert Walk(arcs, p[i..], p[i], s, {other});
    assert Escapes(arcs, roots, p[i], {other});
  }

  lemma MustPassAntisymmetric(arcs: Arcs, roots: set<int>, a: int, b: int)
    requires Escapes(arcs, roots, a, {})
    requires MustPass(arcs, roots, a, b) && MustPass(arcs, roots, b, a)
    ensures a == b
  {
    if a != b {
      EscapesLast(arcs, roots, a, b);
    }
  }

  // ---------- immediate (post-)dominators ----------

  /** c is the closest of the nodes, other than n itself, that n must pass. */
  predicate IsImmediate(sets: Solution, n: int, c: int)
    requires n in sets
  {
    && c in sets[n] - {n}
    && c in sets
    && forall other :: other in sets[n] - {n} ==> other == c || other in sets[c]
  }

  ghost predicate IsSolution(arcs: Arcs, roots: set<int>, sets: Solution) {
    && Closed(arcs)
    && sets.Keys == arcs.Keys
    && forall n :: n in arcs ==> sets[n] == MustSet(arcs, roots, n)
  }

  /** Iterate over a set in no particular order, as the source does. */
  method Take<T(==)>(s: set<T>) returns (x: T, rest: set<T>)
    requires s != {}
    ensures x in s && rest == s - {x}
  {
    x :| x in s;
    rest := s - {x};
  }

  /** Search, in no fixed order, for a candidate that all other strict members precede. */
  method Immediate(sets: Solution) returns (result: map<int, Option<int>>)
    requires forall n :: n in sets ==> sets[n] <= sets.Keys
    ensures result.Keys == sets.Keys
    ensures forall n :: n in sets ==>
              match result[n]
              case Some(c) => IsImmediate(sets, n, c)
              case None => forall c :: !IsImmediate(sets, n, c)
  {
    result := map[];
    var nodes := sets.Keys;
    while nodes != {}
      invariant nodes <= sets.Keys
      invariant result.Keys == sets.Keys - nodes
      invariant forall n :: n in result ==>
                  match result[n]
                  case Some(c) => IsImmediate(sets, n, c)
                  case None => forall c :: !IsImmediate(sets, n, c)
    {
      var node, others := Take(nodes);
      var immediate := ClosestMember(sets, node);
      result := result[node := immediate];
      nodes := others;
    }
  }

  method ClosestMember(sets: Solution, node: int) returns (immediate: Option<int>)
    requires node in sets && sets[node] <= sets.Keys
    ensures match immediate
            case Some(c) => IsImmediate(sets, node, c)
            case None => forall c :: !IsImmediate(sets, node, c)
  {
    var strict := sets[node] - {node};
    immediate := None;
    var candidates := strict;
    while candidates != {}
      invariant candidates <= strict
      invariant forall c :: c in strict - candidates ==> !IsImmediate(sets, node, c)
    {
      var candidate, others := Take(candidates);
      if forall other :: other in strict ==> other == candidate || other in sets[candidate] {
        return Some(candidate);
      }
      candidates := others;
    }
  }

  /** Among nodes that n must pass there is one that all of them precede. */
  lemma {:induction false} ClosestExists(arcs: Arcs, roots: set<int>, n: int, some: set<int>) returns (c: int)
    requires Escapes(arcs, roots, n, {}) && some != {}
    requires forall d :: d in some ==> MustPass(arcs, roots, n, d)
    ensures c in some && forall d :: d in some ==> MustPass(arcs, roots, c, d)
    decreases |some|
  {
    var x := Pick(some);
    MustPassSelf(arcs, roots, x);
    if some == {x} {
      c := x;
    } else {
      c := ClosestExists(arcs, roots, n, some - {x});
      MustPassTotal(arcs, roots, n, x, c);
      if !MustPass(arcs, roots, c, x) {
        forall d | d in some - {x} ensures MustPass(arcs, roots, x, d) {
          MustPassTrans(arcs, roots, x, c, d);
        }
        c := x;
      }
      forall d | d in some ensures MustPass(arcs, roots, c, d) {
      }
    }
  }

  /** A node that escapes has at most one immediate, and has one unless it passes only itself. */
  lemma ImmediateUnique(arcs: Arcs, roots: set<int>, sets: Solution, n: int)
    requires IsSolution(arcs, roots, sets) && n in arcs
    requires Escapes(arcs, roots, n, {})
    ensures forall c, d :: IsImmediate(sets, n, c) && IsImmediate(sets, n, d) ==> c == d
    ensures (exists c :: IsImmediate(sets, n, c)) <==> sets[n] != {n}
  {
    forall c, d | IsImmediate(sets, n, c) && IsImmediate(sets, n, d) ensures c == d {
      if c != d {
        EscapeThrough(arcs, roots, n, c, {});
        MustPassAntisymmetric(arcs, roots, c, d);
      }
    }
    MustPassSelf(arcs, roots, n);
    if sets[n] != {n} {
      var strict := sets[n] - {n};
      assert sets[n] == strict + {n};
      var c := ClosestExists(arcs, roots, n, strict);
      assert IsImmediate(sets, n, c);
    }
  }

  /** Stepping to the immediate drops exactly the node itself. */
  lemma ImmediateStep(arcs: Arcs, roots: set<int>, sets: Solution, n: int, c: int)
    requires IsSolution(arcs, roots, sets) && n in arcs
    requires Escapes(arcs, roots, n, {}) && IsImmediate(sets, n, c)
    ensures Escapes(arcs, roots, c, {})
    ensures n !in sets[c] && sets[n] == sets[c] + {n}
  {
    EscapeThrough(arcs, roots, n, c, {});
    if n in sets[c] {
      MustPassAntisymmetric(arcs, roots, n, c);
    }
    MustPassSelf(arcs, roots, n);
    MustPassSelf(arcs, roots, c);
    forall d | d in sets[c] ensures d in sets[n] {
      MustPassTrans(arcs, roots, n, c, d);
    }
  }

  /** q climbs from n along the recorded immediates to a node that has none. */
  ghost predicate Climbs(immediates: map<int, Option<int>>, q: seq<int>, n: int) {
    && q != []
    && q[0] == n
    && (forall i :: 0 <= i < |q| ==> q[i] in immediates)
    && (forall i :: 0 <= i < |q| - 1 ==> immediates[q[i]] == Some(q[i + 1]))
    && immediates[q[|q| - 1]] == None
  }

  ghost predicate AreImmediates(sets: Solution, immediates: map<int, Option<int>>) {
    && immediates.Keys == sets.Keys
    && forall n :: n in sets ==>
         match immediates[n]
         case Some(c) => IsImmediate(sets, n, c)
         case None => forall c :: !IsImmediate(sets, n, c)
  }

  lemma ClimbOne(immediates: map<int, Option<int>>, rest: seq<int>, n: int, c: int)
    requires Climbs(immediates, rest, c) && n in immediates && immediates[n] == Some(c)
    ensures Climbs(immediates, [n] + rest, n)
  {
  }

  /** Following the immediates from an escaping node lists exactly the nodes it must pass, each once. */
  lemma {:induction false} ClimbListsSet(arcs: Arcs, roots: set<int>, sets: Solution,
                                         immediates: map<int, Option<int>>, n: int) returns (q: seq<int>)
    requires IsSolution(arcs, roots, sets) && AreImmediates(sets, immediates) && n in arcs
    requires Escapes(arcs, roots, n, {})
    ensures Climbs(immediates, q, n)
    ensures (forall w :: w in q <==> w in sets[n]) && |q| == |sets[n]|
    ensures sets[q[|q| - 1]] == {q[|q| - 1]}
    decreases |sets[n]|
  {
    ImmediateUnique(arcs, roots, sets, n);
    if immediates[n] == None {
      q := [n];
      assert sets[n] == {n};
    } else {
      var c := immediates[n].value;
      ImmediateStep(arcs, roots, sets, n, c);
      var rest := ClimbListsSet(arcs, roots, sets, immediates, c);
      q := [n] + rest;
      ClimbOne(immediates, rest, n, c);
    }
  }

  // ---------- forward dominance in a rooted graph ----------

  lemma RootedEscapes(g: Graph, n: int)
    requires g.Rooted() && n in g.nodes && g.entry in g.nodes
    ensures Sink(g.In(), {g.entry}, g.entry)
    ensures Escapes(g.In(), {g.entry}, n, {})
  {
    GraphTransposed(g);
    WalkReverse(g.Out(), g.In(), g.entry, n, {});
  }

  /** In a rooted graph the entry is the only sink of the predecessor relation. */
  lemma RootedSink(g: Graph, n: int)
    requires g.Rooted() && g.entry in g.nodes && Sink(g.In(), {g.entry}, n)
    ensures n == g.entry
  {
    if n != g.entry {
      RootedEscapes(g, n);
      GraphTransposed(g);
      WalkReverse(g.Out(), g.In(), g.entry, n, {});
      ConnectsMoves(g.In(), n, g.entry, {});
    }
  }

  /** d dominates n: every walk from the entry to n visits d. */
  ghost predicate Dominates(g: Graph, d: int, n: int) {
    !Connects(g.Out(), g.entry, n, {d})
  }

  /** In a rooted graph must-pass over predecessors is dominance. */
  lemma MustPassIsDominance(g: Graph, d: int, n: int)
    requires g.Rooted() && g.entry in g.nodes && n in g.nodes
    ensures MustPass(g.In(), {g.entry}, n, d) <==> Dominates(g, d, n)
  {
    GraphTransposed(g);
    WalkReverse(g.Out(), g.In(), g.entry, n, {d});
    WalkReverse(g.In(), g.Out(), n, g.entry, {d});
    RootedEscapes(g, n);
    if Escapes(g.In(), {g.entry}, n, {d}) {
      var s :| Sink(g.In(), {g.entry}, s) && Connects(g.In(), n, s, {d});
      RootedSink(g, s);
    }
  }

  /** A block from which no edge leads to a reachable block. */
  predicate Exit(g: Graph, x: int) {
    x in g.nodes && forall e :: e in g.edges && e.source == x ==> e.target !in g.nodes
  }

  /** d post-dominates n: every walk from n to an exit visits d. */
  ghost predicate PostDominates(g: Graph, d: int, n: int) {
    forall p, x :: Exit(g, x) && Walk(g.Out(), p, n, x, {}) ==> d in p
  }

  /** Must-pass over successors is post-dominance, vacuous where no exit can be reached. */
  lemma MustPassIsPostDominance(g: Graph, d: int, n: int)
    requires n in g.nodes
    ensures MustPass(Parents(g, true), Roots(g, true), n, d) <==> PostDominates(g, d, n)
  {
    var arcs, roots := Parents(g, true), Roots(g, true);
    assert arcs == g.Out();
    forall x ensures Sink(arcs, roots, x) <==> Exit(g, x) {
      SinkIsExit(g, x);
    }
    hide Exit, Roots, Parents, Sink;
    if Escapes(arcs, roots, n, {d}) {
      var x :| Sink(arcs, roots, x) && Connects(arcs, n, x, {d});
      var p :| Walk(arcs, p, n, x, {d});
      assert Walk(arcs, p, n, x, {}) && d !in p;
    }
    if !PostDominates(g, d, n) {
      var p, x :| Exit(g, x) && Walk(arcs, p, n, x, {}) && d !in p;
      assert Walk(arcs, p, n, x, {d});
    }
  }

  lemma SinkIsExit(g: Graph, x: int)
    ensures Sink(Parents(g, true), Roots(g, true), x) <==> Exit(g, x)
  {
    var arcs := Parents(g, true);
    if x in g.nodes {
      if t :| t in arcs[x] {
        assert t in g.Successors(x);
      }
      if e :| e in g.edges && e.source == x && e.target in g.nodes {
        assert e.target in arcs[x];
      }
      NoneIn(arcs[x]);
      NoneIn(g.Successors(x) * g.nodes);
    }
  }

  lemma NoneIn(s: set<int>)
    ensures s == {} <==> forall x :: x !in s
  {
    if s != {} {
      var x := Pick(s);
    }
  }

  /** The dominator tree: the chain of immediates from n is its dominators, and ends at the entry. */
  lemma DominatorChain(g: Graph, sets: Solution, immediates: map<int, Option<int>>, n: int) returns (q: seq<int>)
    requires g.Rooted() && g.entry in g.nodes && n in g.nodes
    requires IsSolution(g.In(), {g.entry}, sets) && AreImmediates(sets, immediates)
    ensures Climbs(immediates, q, n) && q[|q| - 1] == g.entry
    ensures forall d :: d in q <==> d in g.nodes && Dominates(g, d, n)
    ensures forall i, j :: 0 <= i < j < |q| ==> q[i] != q[j]
  {
    RootedEscapes(g, n);
    q := ClimbListsSet(g.In(), {g.entry}, sets, immediates, n);
    forall d | d in g.nodes ensures d in sets[n] <==> Dominates(g, d, n) {
      MustPassIsDominance(g, d, n);
    }
    var last := q[|q| - 1];
    assert last in sets[n];
    forall s | Sink(g.In(), {g.entry}, s) ensures !Connects(g.In(), last, s, {g.entry}) {
      RootedSink(g, s);
      ConnectsBlocked(g.In(), last, s, {g.entry});
    }
    assert g.entry in sets[last];
    assert (set w | w in q) == sets[n];
    NoRepeats(q);
  }

  lemma {:induction false} NoRepeats(q: seq<int>)
    ensures |set w | w in q| <= |q|
    ensures |set w | w in q| == |q| ==> forall i, j :: 0 <= i < j < |q| ==> q[i] != q[j]
  {
    if q != [] {
      NoRepeats(q[1..]);
      assert (set w | w in q) == {q[0]} + (set w | w in q[1..]);
    }
  }

  // ---------- nodes that never escape ----------

  /**
   A node from which no walk ends keeps the full set, and then the search may answer with
   several candidates. The answer is determined exactly when the node escapes or at most two
   nodes do not.
   */
  lemma ImmediateDetermined(arcs: Arcs, roots: set<int>, sets: Solution, n: int, stuck: set<int>)
    requires IsSolution(arcs, roots, sets) && n in arcs
    requires forall v :: v in stuck <==> v in arcs && !Escapes(arcs, roots, v, {})
    ensures (forall c, d :: IsImmediate(sets, n, c) && IsImmediate(sets, n, d) ==> c == d)
            <==> n !in stuck || |stuck| <= 2
  {
    if n !in stuck {
      ImmediateUnique(arcs, roots, sets, n);
      return;
    }
    forall v | v in stuck ensures sets[v] == arcs.Keys {
      StuckPassesAll(arcs, roots, v);
    }
    if |stuck| > 2 {
      var others := stuck - {n};
      assert |others| == |stuck| - 1;
      var c := Pick(others);
      assert |others - {c}| == |others| - 1;
      var d := Pick(others - {c});
      assert IsImmediate(sets, n, c) && IsImmediate(sets, n, d);
    } else {
      forall c, d | IsImmediate(sets, n, c) && IsImmediate(sets, n, d) ensures c == d {
        if c != d {
          StuckCandidate(arcs, roots, sets, n, stuck, c, d);
          StuckCandidate(arcs, roots, sets, n, stuck, d, c);
          if c in stuck && d in stuck {
            ThreeOf(stuck, n, c, d);
            assert false;
          } else {
            MustPassAntisymmetric(arcs, roots, if c in stuck then d else c, if c in stuck then c else d);
          }
        }
      }
    }
  }

  /** Three blocks that jump around forever: post-dominance leaves two immediates for the entry. */
  lemma UndeterminedExists() returns (g: Graph, sets: Solution)
    ensures g.Rooted() && g.entry in g.nodes
    ensures IsSolution(Parents(g, true), Roots(g, true), sets) && 0 in sets
    ensures IsImmediate(sets, 0, 1) && IsImmediate(sets, 0, 2)
  {
    g := Graph({0, 1, 2}, [Edge(0, 1, Jump), Edge(1, 2, Jump), Edge(2, 0, Jump)], 0);
    sets := map n | n in g.nodes :: g.nodes;
    var arcs, roots := g.Out(), Roots(g, true);
    Turns(g, 0);
    Turns(g, 1);
    Turns(g, 2);
    ConnectsSelf(arcs, 0, {});
    ConnectsStep(arcs, 0, 1, {});
    ConnectsStep(arcs, 1, 2, {});
    ConnectsTrans(arcs, 0, 1, 2, {});
    forall n | n in g.nodes ensures MustSet(arcs, roots, n) == arcs.Keys {
      assert forall s :: !Sink(arcs, roots, s);
      StuckPassesAll(arcs, roots, n);
    }
  }

  lemma Turns(g: Graph, n: int)
    requires g.nodes == {0, 1, 2} && 0 <= n < 3
    requires g.edges == [Edge(0, 1, Jump), Edge(1, 2, Jump), Edge(2, 0, Jump)]
    ensures var next := if n == 2 then 0 else n + 1;
            Step(g.Out(), n, next) && n !in Roots(g, true) && Closed(g.Out())
  {
    var next := if n == 2 then 0 else n + 1;
    assert g.edges[n] in g.edges && g.edges[n].source == n;
    assert next in g.Successors(n) * g.nodes;
  }

  lemma StuckPassesAll(arcs: Arcs, roots: set<int>, v: int)
    requires !Escapes(arcs, roots, v, {})
    ensures MustSet(arcs, roots, v) == arcs.Keys
  {
    forall d | d in arcs ensures MustPass(arcs, roots, v, d) {
      if Escapes(arcs, roots, v, {d}) {
        var s :| Sink(arcs, roots, s) && Connects(arcs, v, s, {d});
        ConnectsWeaken(arcs, v, s, {d}, {});
      }
    }
  }

  /** An escaping node must pass no stuck one, so a candidate for a stuck node that passes another escapes with it. */
  lemma StuckCandidate(arcs: Arcs, roots: set<int>, sets: Solution, n: int, stuck: set<int>, c: int, d: int)
    requires IsSolution(arcs, roots, sets) && n in stuck && n in arcs && c != d
    requires forall v :: v in stuck <==> v in arcs && !Escapes(arcs, roots, v, {})
    requires sets[n] == arcs.Keys
    requires IsImmediate(sets, n, c) && IsImmediate(sets, n, d)
    ensures MustPass(arcs, roots, c, d)
    ensures d in stuck ==> c in stuck
  {
    if d in stuck && Escapes(arcs, roots, c, {}) {
      EscapeThrough(arcs, roots, c, d, {});
    }
  }
}
