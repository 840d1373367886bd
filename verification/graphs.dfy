/** Directed graphs as the control-flow analyses see them, and the theory of walks they rest on. */
module Graphs {
  import opened Sets

  /** The labels an edge can carry, in the alphabetical order of their spellings. */
  datatype EdgeKind =
    | Exception
    | Exhausted
    | Fallthrough
    | IfFalse
    | Iterate
    | Jump
    | IfNone
    | IfNotNone
    | Returned
    | IfTrue
    | Yielded

  datatype Edge = Edge(source: int, target: int, kind: EdgeKind)

  /** The part of a control-flow graph that dominator analysis reads: the reachable blocks, all edges, the entry. */
  datatype Graph = Graph(nodes: set<int>, edges: seq<Edge>, entry: int) {

    function Successors(node: int): set<int> {
      set e | e in edges && e.source == node :: e.target
    }

    function Predecessors(node: int): set<int> {
      set e | e in edges && e.target == node :: e.source
    }

    /** The successor relation between reachable blocks. */
    function Out(): Arcs {
      map n | n in nodes :: Successors(n) * nodes
    }

    /** The predecessor relation between reachable blocks. */
    function In(): Arcs {
      map n | n in nodes :: Predecessors(n) * nodes
    }

    /** Every reachable block really is reachable from the entry. */
    ghost predicate Rooted() {
      forall n :: n in nodes ==> Reaches(Out(), entry, n)
    }
  }

  type Arcs = map<int, set<int>>

  predicate Step(arcs: Arcs, u: int, v: int) {
    u in arcs && v in arcs[u]
  }

  /** All arcs stay among the keys. */
  predicate Closed(arcs: Arcs) {
    forall u :: u in arcs ==> arcs[u] <= arcs.Keys
  }

  predicate Transposed(arcs: Arcs, back: Arcs) {
    && arcs.Keys == back.Keys
    && Closed(arcs) && Closed(back)
    && forall u, v :: u in arcs && v in back ==> (v in arcs[u] <==> u in back[v])
  }

  // ---------- walks ----------

  /** p is a walk from u to v that meets no member of x. */
  ghost predicate Walk(arcs: Arcs, p: seq<int>, u: int, v: int, x: set<int>) {
    && p != []
    && p[0] == u
    && p[|p| - 1] == v
    && (forall i :: 0 <= i < |p| - 1 ==> Step(arcs, p[i], p[i + 1]))
    && (forall w :: w in p ==> w !in x)
  }

  ghost predicate Connects(arcs: Arcs, u: int, v: int, x: set<int>) {
    exists p :: Walk(arcs, p, u, v, x)
  }

  ghost predicate Reaches(arcs: Arcs, u: int, v: int) {
    Connects(arcs, u, v, {})
  }

  lemma WalkSuffix(arcs: Arcs, p: seq<int>, u: int, v: int, x: set<int>, i: nat)
    requires Walk(arcs, p, u, v, x) && i < |p|
    ensures Walk(arcs, p[i..], p[i], v, x)
  {
    var q := p[i..];
    forall k | 0 <= k < |q| - 1 ensures Step(arcs, q[k], q[k + 1]) {
      assert Step(arcs, p[i + k], p[i + k + 1]);
    }
  }

  lemma WalkPrefix(arcs: Arcs, p: seq<int>, u: int, v: int, x: set<int>, i: nat)
    requires Walk(arcs, p, u, v, x) && i < |p|
    ensures Walk(arcs, p[..i + 1], u, p[i], x)
  {
  }

  lemma ConnectsSelf(arcs: Arcs, u: int, x: set<int>)
    requires u !in x
    ensures Connects(arcs, u, u, x)
  {
    assert Walk(arcs, [u], u, u, x);
  }

  lemma ConnectsEnds(arcs: Arcs, u: int, v: int, x: set<int>)
    requires Connects(arcs, u, v, x)
    ensures u !in x && v !in x
  {
    var p :| Walk(arcs, p, u, v, x);
    assert u in p && v in p;
  }

  lemma ConnectsBlocked(arcs: Arcs, u: int, v: int, x: set<int>)
    requires u in x || v in x
    ensures !Connects(arcs, u, v, x)
  {
    forall p | Walk(arcs, p, u, v, {}) ensures u in p && v in p {
    }
  }

  lemma ConnectsTrans(arcs: Arcs, u: int, v: int, w: int, x: set<int>)
    requires Connects(arcs, u, v, x) && Connects(arcs, v, w, x)
    ensures Connects(arcs, u, w, x)
  {
    var p :| Walk(arcs, p, u, v, x);
    var q :| Walk(arcs, q, v, w, x);
    var r := p + q[1..];
    forall k | 0 <= k < |r| - 1 ensures Step(arcs, r[k], r[k + 1]) {
      if k < |p| - 1 {
        assert Step(arcs, p[k], p[k + 1]);
      } else {
        assert Step(arcs, q[k - |p| + 1], q[k - |p| + 2]);
      }
    }
    assert Walk(arcs, r, u, w, x);
  }

  lemma ConnectsStep(arcs: Arcs, u: int, v: int, x: set<int>)
    requires Step(arcs, u, v) && u !in x && v !in x
    ensures Connects(arcs, u, v, x)
  {
    assert Walk(arcs, [u, v], u, v, x);
  }

  lemma ConnectsMoves(arcs: Arcs, u: int, v: int, x: set<int>)
    requires Connects(arcs, u, v, x) && u != v
    ensures u in arcs && arcs[u] != {}
  {
    var p :| Walk(arcs, p, u, v, x);
    assert Step(arcs, p[0], p[1]);
  }

  lemma ConnectsWeaken(arcs: Arcs, u: int, v: int, x: set<int>, y: set<int>)
    requires Connects(arcs, u, v, x) && y <= x
    ensures Connects(arcs, u, v, y)
  {
    var p :| Walk(arcs, p, u, v, x);
    assert Walk(arcs, p, u, v, y);
  }

  /** A walk that starts at a key of a closed relation stays among the keys. */
  lemma {:induction false} WalkInside(arcs: Arcs, p: seq<int>, u: int, v: int, x: set<int>)
    requires Closed(arcs) && u in arcs && Walk(arcs, p, u, v, x)
    ensures forall w :: w in p ==> w in arcs
  {
    if |p| > 1 {
      assert Step(arcs, p[0], p[1]);
      WalkSuffix(arcs, p, u, v, x, 1);
      WalkInside(arcs, p[1..], p[1], v, x);
    }
  }

  /** The last visit of a walk to a set: what follows it avoids the set. */
  lemma {:induction false} LastVisit(arcs: Arcs, p: seq<int>, u: int, v: int, x: set<int>, hit: set<int>)
    returns (i: nat)
    requires Walk(arcs, p, u, v, x)
    requires exists w :: w in p && w in hit
    ensures i < |p| && p[i] in hit
    ensures forall k :: i < k < |p| ==> p[k] !in hit
  {
    i := |p| - 1;
    while p[i] !in hit
      invariant i < |p|
      invariant forall k :: i < k < |p| ==> p[k] !in hit
      decreases i
    {
      if i == 0 {
        assert false;
      }
      i := i - 1;
    }
  }

  /** Reversing a walk gives a walk of the transposed relation. */
  lemma WalkReverse(arcs: Arcs, back: Arcs, u: int, v: int, x: set<int>)
    requires Transposed(arcs, back) && u in arcs
    ensures Connects(arcs, u, v, x) ==> Connects(back, v, u, x)
  {
    if Connects(arcs, u, v, x) {
      var p :| Walk(arcs, p, u, v, x);
      WalkInside(arcs, p, u, v, x);
      var n := |p|;
      var q := seq(n, i requires 0 <= i < n => p[n - 1 - i]);
      forall k | 0 <= k < n - 1 ensures Step(back, q[k], q[k + 1]) {
        assert Step(arcs, p[n - 2 - k], p[n - 1 - k]);
      }
      assert Walk(back, q, v, u, x);
    }
  }

  lemma GraphTransposed(g: Graph)
    ensures Transposed(g.Out(), g.In())
  {
    forall u, v | u in g.nodes && v in g.nodes
      ensures v in g.Successors(u) <==> u in g.Predecessors(v)
    {
      if v in g.Successors(u) {
        var e :| e in g.edges && e.source == u && e.target == v;
        assert u in g.Predecessors(v);
      }
      if u in g.Predecessors(v) {
        var e :| e in g.edges && e.source == u && e.target == v;
        assert v in g.Successors(u);
      }
    }
  }

  /** Restricting a graph to what is reachable from u loses no walk from u. */
  lemma RestrictToReachable(whole: Graph, part: Graph, u: int)
    requires part.edges == whole.edges && u in whole.nodes
    requires forall k :: k in part.nodes <==> k in whole.nodes && Reaches(whole.Out(), u, k)
    ensures u in part.nodes
    ensures forall k :: k in part.nodes ==> Reaches(part.Out(), u, k)
  {
    ConnectsSelf(whole.Out(), u, {});
    forall k | k in part.nodes ensures Reaches(part.Out(), u, k) {
      var p :| Walk(whole.Out(), p, u, k, {});
      RestrictWalk(whole, part, u, p, k);
    }
  }

  lemma RestrictWalk(whole: Graph, part: Graph, u: int, p: seq<int>, v: int)
    requires part.edges == whole.edges && u in whole.nodes
    requires forall k :: k in part.nodes <==> k in whole.nodes && Reaches(whole.Out(), u, k)
    requires Walk(whole.Out(), p, u, v, {})
    ensures Walk(part.Out(), p, u, v, {})
  {
    GraphTransposed(whole);
    WalkInside(whole.Out(), p, u, v, {});
    forall i | 0 <= i < |p| ensures p[i] in part.nodes {
      WalkPrefix(whole.Out(), p, u, v, {}, i);
      assert p[i] in p;
    }
    forall i | 0 <= i < |p| - 1 ensures Step(part.Out(), p[i], p[i + 1]) {
      assert Step(whole.Out(), p[i], p[i + 1]);
    }
  }

  // ---------- simulation ----------

  /** When each step of one relation is matched by a walk of another, so is each walk. */
  lemma {:induction false} SimulateWalk(arcs: Arcs, other: Arcs, f: int -> int, p: seq<int>, u: int, v: int)
    requires forall a, b :: Step(arcs, a, b) ==> Reaches(other, f(a), f(b))
    requires Walk(arcs, p, u, v, {})
    ensures Reaches(other, f(u), f(v))
  {
    if |p| == 1 {
      ConnectsSelf(other, f(u), {});
    } else {
      assert Step(arcs, p[0], p[1]);
      WalkSuffix(arcs, p, u, v, {}, 1);
      SimulateWalk(arcs, other, f, p[1..], p[1], v);
      ConnectsTrans(other, f(u), f(p[1]), f(v), {});
    }
  }

  lemma Simulate(arcs: Arcs, other: Arcs, f: int -> int, u: int, v: int)
    requires forall a, b :: Step(arcs, a, b) ==> Reaches(other, f(a), f(b))
    requires Reaches(arcs, u, v)
    ensures Reaches(other, f(u), f(v))
  {
    var p :| Walk(arcs, p, u, v, {});
    SimulateWalk(arcs, other, f, p, u, v);
  }

  // ---------- edge queries ----------

  function EdgesFrom(edges: seq<Edge>, k: int): (r: seq<Edge>)
    ensures forall e :: e in r <==> e in edges && e.source == k
  {
    if edges == [] then [] else
      (if edges[0].source == k then [edges[0]] else []) + EdgesFrom(edges[1..], k)
  }

  function EdgesInto(edges: seq<Edge>, k: int): (r: seq<Edge>)
    ensures forall e :: e in r <==> e in edges && e.target == k
  {
    if edges == [] then [] else
      (if edges[0].target == k then [edges[0]] else []) + EdgesInto(edges[1..], k)
  }

  function NormalOnly(edges: seq<Edge>): (r: seq<Edge>)
    ensures forall e :: e in r <==> e in edges && !e.kind.Exception?
    ensures |r| <= |edges|
  {
    if edges == [] then [] else
      (if edges[0].kind.Exception? then [] else [edges[0]]) + NormalOnly(edges[1..])
  }

  function Targets(edges: seq<Edge>): (r: seq<int>)
    ensures |r| == |edges|
    ensures forall m :: m in r <==> exists e :: e in edges && e.target == m
  {
    if edges == [] then [] else [edges[0].target] + Targets(edges[1..])
  }

  // ---------- the order of edges ----------

  function Rank(kind: EdgeKind): int {
    match kind
    case Exception => 0
    case Exhausted => 1
    case Fallthrough => 2
    case IfFalse => 3
    case Iterate => 4
    case Jump => 5
    case IfNone => 6
    case IfNotNone => 7
    case Returned => 8
    case IfTrue => 9
    case Yielded => 10
  }

  predicate Before(a: Edge, b: Edge) {
    || a.source < b.source
    || (a.source == b.source && a.target < b.target)
    || (a.source == b.source && a.target == b.target && Rank(a.kind) < Rank(b.kind))
  }

  ghost predicate StrictlySorted(edges: seq<Edge>) {
    forall i, j :: 0 <= i < j < |edges| ==> Before(edges[i], edges[j])
  }

  function Insert(edges: seq<Edge>, e: Edge): (r: seq<Edge>)
    requires StrictlySorted(edges)
    ensures StrictlySorted(r)
    ensures forall d :: d in r <==> d in edges || d == e
  {
    if edges == [] || Before(e, edges[0]) then [e] + edges
    else if e == edges[0] then edges
    else
      var rest := Insert(edges[1..], e);
      assert forall d :: d in rest ==> Before(edges[0], d);
      [edges[0]] + rest
  }

  /** The distinct edges in order. */
  function SortedEdges(edges: seq<Edge>): (r: seq<Edge>)
    ensures StrictlySorted(r)
    ensures forall d :: d in r <==> d in edges
  {
    if edges == [] then [] else Insert(SortedEdges(edges[1..]), edges[0])
  }

  // ---------- closed sets ----------

  /** A set closed under steps holds everything its members reach. */
  lemma SeenAll(arcs: Arcs, seen: set<int>, entry: int)
    requires entry in seen && forall k, m :: k in seen && Step(arcs, k, m) ==> m in seen
    ensures forall k :: Reaches(arcs, entry, k) ==> k in seen
  {
    forall k | Reaches(arcs, entry, k) ensures k in seen {
      var p :| Walk(arcs, p, entry, k, {});
      SeenClosed(arcs, seen, p, entry, k);
    }
  }

  lemma {:induction false} SeenClosed(arcs: Arcs, seen: set<int>, p: seq<int>, u: int, v: int)
    requires u in seen && Walk(arcs, p, u, v, {})
    requires forall k, m :: k in seen && Step(arcs, k, m) ==> m in seen
    ensures v in seen
  {
    if |p| > 1 {
      assert Step(arcs, p[0], p[1]);
      WalkSuffix(arcs, p, u, v, {}, 1);
      SeenClosed(arcs, seen, p[1..], p[1], v);
    }
  }

  // ---------- counting edges ----------

  /** The number of edges from `sources` to `targets`. */
  function Count(edges: seq<Edge>, sources: set<int>, targets: set<int>): nat {
    if edges == [] then 0
    else
      (if edges[0].source in sources && edges[0].target in targets then 1 else 0)
      + Count(edges[1..], sources, targets)
  }

  lemma {:induction false} CountAppend(a: seq<Edge>, b: seq<Edge>, sources: set<int>, targets: set<int>)
    ensures Count(a + b, sources, targets) == Count(a, sources, targets) + Count(b, sources, targets)
  {
    if a == [] {
      assert a + b == b;
    } else {
      assert (a + b)[1..] == a[1..] + b;
      CountAppend(a[1..], b, sources, targets);
    }
  }

  lemma {:induction false} CountMore(edges: seq<Edge>, sources: set<int>, k: int, targets: set<int>)
    requires k !in sources
    ensures Count(edges, sources + {k}, targets) == Count(edges, sources, targets) + Count(edges, {k}, targets)
  {
    if edges != [] {
      CountMore(edges[1..], sources, k, targets);
    }
  }

  lemma {:induction false} CountMonotone(edges: seq<Edge>, few: set<int>, many: set<int>, targets: set<int>)
    requires forall k :: k in few ==> k in many
    ensures Count(edges, few, targets) <= Count(edges, many, targets)
  {
    if edges != [] {
      CountMonotone(edges[1..], few, many, targets);
    }
  }

  lemma {:induction false} CountNone(edges: seq<Edge>, targets: set<int>)
    ensures Count(edges, {}, targets) == 0
  {
    if edges != [] {
      CountNone(edges[1..], targets);
    }
  }

  lemma {:induction false} CountFrom(edges: seq<Edge>, k: int, targets: set<int>)
    ensures Count(EdgesFrom(edges, k), {k}, targets) == Count(edges, {k}, targets)
  {
    if edges != [] {
      CountFrom(edges[1..], k, targets);
      var front := if edges[0].source == k then [edges[0]] else [];
      assert EdgesFrom(edges, k) == front + EdgesFrom(edges[1..], k);
      CountAppend(front, EdgesFrom(edges[1..], k), {k}, targets);
    }
  }

  /** The targets of the edges that end among `targets`. */
  function TargetsWithin(edges: seq<Edge>, targets: set<int>): (r: seq<int>)
    ensures forall m :: m in r <==> m in targets && exists e :: e in edges && e.target == m
  {
    if edges == [] then [] else
      (if edges[0].target in targets then [edges[0].target] else []) + TargetsWithin(edges[1..], targets)
  }

  lemma TargetsWithinNone(targets: set<int>)
    ensures TargetsWithin([], targets) == []
  {
  }

  lemma {:induction false} TargetsWithinNext(edges: seq<Edge>, i: nat, targets: set<int>)
    requires i < |edges|
    ensures TargetsWithin(edges[..i + 1], targets) ==
            TargetsWithin(edges[..i], targets) + if edges[i].target in targets then [edges[i].target] else []
  {
    if i > 0 {
      assert edges[..i + 1][1..] == edges[1..][..i];
      assert edges[..i][1..] == edges[1..][..i - 1];
      TargetsWithinNext(edges[1..], i - 1, targets);
    }
  }

  lemma {:induction false} TargetsCounted(edges: seq<Edge>, k: int, targets: set<int>)
    requires forall e :: e in edges ==> e.source == k
    ensures |TargetsWithin(edges, targets)| == Count(edges, {k}, targets)
  {
    if edges != [] {
      TargetsCounted(edges[1..], k, targets);
    }
  }

  ghost predicate Distinct(edges: seq<Edge>) {
    forall i, j :: 0 <= i < j < |edges| ==> edges[i] != edges[j]
  }

  lemma {:induction false} DistinctFrom(edges: seq<Edge>, k: int)
    requires Distinct(edges)
    ensures Distinct(EdgesFrom(edges, k))
  {
    if edges != [] {
      DistinctFrom(edges[1..], k);
    }
  }

  lemma {:induction false} DistinctNormal(edges: seq<Edge>)
    requires Distinct(edges)
    ensures Distinct(NormalOnly(edges))
  {
    if edges != [] {
      DistinctNormal(edges[1..]);
    }
  }

  lemma {:induction false} DistinctSize(edges: seq<Edge>)
    requires Distinct(edges)
    ensures |set e | e in edges| == |edges|
  {
    if edges != [] {
      DistinctSize(edges[1..]);
      assert (set e | e in edges) == (set e | e in edges[1..]) + {edges[0]};
    }
  }

  lemma AtMostTwo(edges: seq<Edge>, a: Edge, b: Edge)
    requires Distinct(edges) && forall e :: e in edges ==> e == a || e == b
    ensures |edges| <= 2
  {
    DistinctSize(edges);
    SubsetSize(set e | e in edges, {a, b});
  }
}
