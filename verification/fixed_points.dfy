/**
 Dominator and post-dominator sets, computed by in-place chaotic iteration.

 Both directions are one computation over a relation `arcs` and a set of roots. A node must
 pass d when every walk along `arcs` from the node to a sink visits d, where the sinks are
 the roots and the nodes without arcs. Forward dominance takes the predecessor relation with
 the entry as root, reverse dominance the successor relation with the exits as roots.
 */
module FixedPoints {
  import opened Graphs
  import opened Sets
  import opened Sorting

  ghost predicate Sink(arcs: Arcs, roots: set<int>, n: int) {
    n in arcs && (n in roots || arcs[n] == {})
  }

  /** Some walk from n ends in a sink without meeting x. */
  ghost predicate Escapes(arcs: Arcs, roots: set<int>, n: int, x: set<int>) {
    exists s :: Sink(arcs, roots, s) && Connects(arcs, n, s, x)
  }

  ghost predicate MustPass(arcs: Arcs, roots: set<int>, n: int, d: int) {
    !Escapes(arcs, roots, n, {d})
  }

  /** The exact solution: all d that n must pass. */
  ghost function MustSet(arcs: Arcs, roots: set<int>, n: int): set<int> {
    set d | d in arcs && MustPass(arcs, roots, n, d)
  }

  type Solution = map<int, set<int>>

  /** The intersection over `parents`, empty when there are none. */
  function Meet(sets: Solution, parents: set<int>): (m: set<int>)
    requires parents <= sets.Keys
    ensures parents == {} ==> m == {}
    ensures parents != {} ==> forall d :: d in m <==> forall p :: p in parents ==> d in sets[p]
  {
    if parents == {} then {} else
      var p := Min(parents);
      set d | d in sets[p] && forall q :: q in parents ==> d in sets[q]
  }

  /** The equation of the analysis at one node. */
  function Equation(arcs: Arcs, roots: set<int>, sets: Solution, n: int): set<int>
    requires n in arcs && arcs[n] <= sets.Keys
  {
    if n in roots then {n} else {n} + Meet(sets, arcs[n])
  }

  ghost function Pairs(sets: Solution): set<(int, int)> {
    set n, d | n in sets && d in sets[n] :: (n, d)
  }

  ghost function Weight(sets: Solution): nat {
    |Pairs(sets)|
  }

  ghost predicate Shrinking(arcs: Arcs, roots: set<int>, sets: Solution) {
    && Closed(arcs)
    && sets.Keys == arcs.Keys
    && (forall n :: n in arcs ==> MustSet(arcs, roots, n) <= sets[n] <= arcs.Keys)
    && (forall n :: n in arcs && n in roots ==> sets[n] == {n})
    && (forall n :: n in arcs ==> Equation(arcs, roots, sets, n) <= sets[n])
  }

  lemma Escape(arcs: Arcs, roots: set<int>, n: int, p: int, x: set<int>)
    requires Step(arcs, n, p) && n !in x && Escapes(arcs, roots, p, x)
    ensures Escapes(arcs, roots, n, x)
  {
    var s :| Sink(arcs, roots, s) && Connects(arcs, p, s, x);
    ConnectsEnds(arcs, p, s, x);
    ConnectsStep(arcs, n, p, x);
    ConnectsTrans(arcs, n, p, s, x);
  }

  lemma SinkMustSet(arcs: Arcs, roots: set<int>, n: int)
    requires Sink(arcs, roots, n)
    ensures MustSet(arcs, roots, n) == {n}
  {
    forall d | d in arcs ensures d in MustSet(arcs, roots, n) <==> d == n {
      if d != n {
        ConnectsSelf(arcs, n, {d});
      } else {
        forall s ensures !Connects(arcs, n, s, {n}) {
          ConnectsBlocked(arcs, n, s, {n});
        }
      }
    }
  }

  /** One evaluation of the equation keeps everything that must stay. */
  lemma EquationAbove(arcs: Arcs, roots: set<int>, sets: Solution, n: int)
    requires Shrinking(arcs, roots, sets) && n in arcs
    ensures MustSet(arcs, roots, n) <= Equation(arcs, roots, sets, n)
  {
    if Sink(arcs, roots, n) {
      SinkMustSet(arcs, roots, n);
    } else {
      forall d, p | d in MustSet(arcs, roots, n) && d != n && p in arcs[n]
        ensures d in sets[p]
      {
        if Escapes(arcs, roots, p, {d}) {
          Escape(arcs, roots, n, p, {d});
        }
        assert d in MustSet(arcs, roots, p);
      }
    }
  }

  /** Lowering one set lowers every equation. */
  lemma EquationMonotone(arcs: Arcs, roots: set<int>, sets: Solution, lower: Solution, n: int)
    requires Closed(arcs) && n in arcs && sets.Keys == lower.Keys == arcs.Keys
    requires forall m :: m in arcs ==> lower[m] <= sets[m]
    ensures Equation(arcs, roots, lower, n) <= Equation(arcs, roots, sets, n)
  {
  }

  lemma WeightDrop(sets: Solution, n: int, updated: set<int>)
    requires n in sets && updated < sets[n]
    ensures Weight(sets[n := updated]) < Weight(sets)
  {
    var d := PickOutside(sets[n], updated);
    assert (n, d) in Pairs(sets) && (n, d) !in Pairs(sets[n := updated]);
    SubsetSize(Pairs(sets[n := updated]), Pairs(sets));
  }

  lemma Lowered(arcs: Arcs, roots: set<int>, sets: Solution, n: int, updated: set<int>)
    requires Shrinking(arcs, roots, sets) && n in arcs && n !in roots
    requires updated == Equation(arcs, roots, sets, n)
    ensures Shrinking(arcs, roots, sets[n := updated])
  {
    var lower := sets[n := updated];
    EquationAbove(arcs, roots, sets, n);
    forall m | m in arcs ensures Equation(arcs, roots, lower, m) <= lower[m] {
      EquationMonotone(arcs, roots, sets, lower, m);
    }
  }

  /** A walk to a sink that avoids d refutes d in a solution of the equations. */
  lemma {:induction false} WalkRefutes(arcs: Arcs, roots: set<int>, sets: Solution, p: seq<int>, n: int, s: int, d: int)
    requires Closed(arcs) && sets.Keys == arcs.Keys && n in arcs
    requires forall m :: m in arcs ==> sets[m] == Equation(arcs, roots, sets, m)
    requires Sink(arcs, roots, s) && Walk(arcs, p, n, s, {d})
    ensures d !in sets[n]
  {
    assert n in p;
    if |p| > 1 && n !in roots {
      assert Step(arcs, p[0], p[1]);
      WalkSuffix(arcs, p, n, s, {d}, 1);
      WalkRefutes(arcs, roots, sets, p[1..], p[1], s, d);
    }
  }

  lemma Exact(arcs: Arcs, roots: set<int>, sets: Solution)
    requires Shrinking(arcs, roots, sets)
    requires forall m :: m in arcs ==> sets[m] == Equation(arcs, roots, sets, m)
    ensures forall n :: n in arcs ==> sets[n] == MustSet(arcs, roots, n)
  {
    forall n, d | n in arcs && d in sets[n] ensures d in MustSet(arcs, roots, n) {
      if Escapes(arcs, roots, n, {d}) {
        var s :| Sink(arcs, roots, s) && Connects(arcs, n, s, {d});
        var p :| Walk(arcs, p, n, s, {d});
        WalkRefutes(arcs, roots, sets, p, n, s, d);
      }
    }
  }

  function Parents(g: Graph, reverse: bool): Arcs {
    if reverse then g.Out() else g.In()
  }

  function Roots(g: Graph, reverse: bool): set<int> {
    if reverse then set n | n in g.nodes && g.Successors(n) * g.nodes == {} else {g.entry}
  }

  ghost predicate Settled(arcs: Arcs, roots: set<int>, sets: Solution, n: int) {
    n in arcs && arcs[n] <= sets.Keys && n in sets && sets[n] == Equation(arcs, roots, sets, n)
  }

  /** One assignment of the iteration. */
  method Update(arcs: Arcs, roots: set<int>, sets: Solution, node: int) returns (result: Solution, changed: bool)
    requires Shrinking(arcs, roots, sets) && node in arcs
    ensures Shrinking(arcs, roots, result)
    ensures if changed then Weight(result) < Weight(sets) else result == sets && Settled(arcs, roots, sets, node)
  {
    if node in roots {
      return sets, false;
    }
    var updated := {node} + Meet(sets, arcs[node]);
    assert updated == Equation(arcs, roots, sets, node);
    if updated != sets[node] {
      Lowered(arcs, roots, sets, node, updated);
      WeightDrop(sets, node, updated);
      return sets[node := updated], true;
    }
    return sets, false;
  }

  /** One pass over all nodes in order. */
  method Sweep(arcs: Arcs, roots: set<int>, sets: Solution) returns (result: Solution, changed: bool)
    requires Shrinking(arcs, roots, sets)
    ensures Shrinking(arcs, roots, result)
    ensures if changed then Weight(result) < Weight(sets)
            else result == sets && forall n :: n in arcs ==> Settled(arcs, roots, sets, n)
  {
    result, changed := sets, false;
    var order := Sorted(arcs.Keys);
    for i := 0 to |order|
      invariant Shrinking(arcs, roots, result)
      invariant if changed then Weight(result) < Weight(sets) else result == sets
      invariant !changed ==> forall n :: n in order[..i] ==> Settled(arcs, roots, sets, n)
    {
      var updated;
      result, updated := Update(arcs, roots, result, order[i]);
      changed := changed || updated;
    }
  }

  /** The chaotic iteration ends, and what it leaves is exactly the must-pass relation. */
  method FixedPointSets(g: Graph, reverse: bool := false) returns (result: Solution)
    ensures result.Keys == g.nodes
    ensures forall n :: n in g.nodes ==> result[n] == MustSet(Parents(g, reverse), Roots(g, reverse), n)
  {
    result := Solve(Parents(g, reverse), Roots(g, reverse));
  }

  method Solve(arcs: Arcs, roots: set<int>) returns (result: Solution)
    requires Closed(arcs)
    ensures result.Keys == arcs.Keys
    ensures forall n :: n in arcs ==> result[n] == MustSet(arcs, roots, n)
  {
    result := map n | n in arcs.Keys :: if n in roots then {n} else arcs.Keys;
    InitiallyShrinking(arcs, roots, result);
    var changed := true;
    while changed
      invariant Shrinking(arcs, roots, result)
      invariant !changed ==> forall n :: n in arcs ==> Settled(arcs, roots, result, n)
      decreases Weight(result), changed
    {
      result, changed := Sweep(arcs, roots, result);
    }
    Exact(arcs, roots, result);
  }

  lemma InitiallyShrinking(arcs: Arcs, roots: set<int>, sets: Solution)
    requires Closed(arcs)
    requires sets == map n | n in arcs.Keys :: if n in roots then {n} else arcs.Keys
    ensures Shrinking(arcs, roots, sets)
  {
    forall n | n in arcs && n in roots ensures MustSet(arcs, roots, n) <= sets[n] {
      SinkMustSet(arcs, roots, n);
    }
  }
}
