/** Strongly connected components by two passes over explicit stacks. */
module StrongComponents {
  import opened Graphs
  import opened Sets
  import opened Sorting

  function Elems(s: seq<int>): set<int> {
    set x | x in s
  }

  // ---------- walks through a set ----------

  /** p is a walk from u to v all of whose nodes before the last lie in `via`. */
  ghost predicate WalkVia(arcs: Arcs, p: seq<int>, u: int, v: int, via: set<int>) {
    Walk(arcs, p, u, v, {}) && forall i :: 0 <= i < |p| - 1 ==> p[i] in via
  }

  ghost predicate ReachesVia(arcs: Arcs, u: int, v: int, via: set<int>) {
    exists p :: WalkVia(arcs, p, u, v, via)
  }

  /** The first arrival at r splits a walk through `via` and r. */
  lemma SplitAt(arcs: Arcs, u: int, v: int, via: set<int>, r: int)
    requires ReachesVia(arcs, u, v, via + {r})
    ensures ReachesVia(arcs, u, v, via) || (ReachesVia(arcs, u, r, via) && Reaches(arcs, r, v))
  {
    var p :| WalkVia(arcs, p, u, v, via + {r});
    if r in p {
      var i := 0;
      while p[i] != r
        invariant i < |p| && forall k :: 0 <= k < i ==> p[k] != r
        decreases |p| - i
      {
        i := i + 1;
      }
      WalkPrefix(arcs, p, u, v, {}, i);
      WalkSuffix(arcs, p, u, v, {}, i);
      assert WalkVia(arcs, p[..i + 1], u, r, via);
      assert Walk(arcs, p[i..], r, v, {});
    } else {
      assert WalkVia(arcs, p, u, v, via);
    }
  }

  // ---------- first pass: depth-first finish order ----------

  /** An open node and the successors its iterator has not yielded yet. */
  datatype Frame = Frame(node: int, children: seq<int>)

  datatype Search = Search(visited: set<int>, finished: seq<int>, pending: seq<Frame>)

  ghost predicate Open(s: Search, v: int) {
    exists i :: 0 <= i < |s.pending| && s.pending[i].node == v
  }

  /** Visited nodes are the finished and the open ones, and successors are visited or still to come. */
  ghost predicate Tracks(arcs: Arcs, s: Search) {
    && s.visited <= arcs.Keys
    && (forall v :: v in s.visited <==> v in s.finished || Open(s, v))
    && (forall v :: v in s.finished ==> arcs[v] <= s.visited)
    && (forall i :: 0 <= i < |s.pending| ==>
          forall c :: c in arcs[s.pending[i].node] ==> c in s.visited || c in s.pending[i].children)
  }

  /** Each open node is a successor of the open node below it. */
  ghost predicate Chained(arcs: Arcs, pending: seq<Frame>) {
    && (forall i :: 0 <= i < |pending| ==> pending[i].node in arcs)
    && (forall i :: 0 <= i < |pending| ==> forall c :: c in pending[i].children ==> c in arcs[pending[i].node])
    && (forall i :: 0 <= i < |pending| - 1 ==> Step(arcs, pending[i].node, pending[i + 1].node))
  }

  /** A finished node that walks to an open one through finished nodes was found below it. */
  ghost predicate Descends(arcs: Arcs, s: Search) {
    forall x, v :: x in s.finished && Open(s, v) && ReachesVia(arcs, x, v, Elems(s.finished)) ==> Reaches(arcs, v, x)
  }

  /** What the finish order promises the second pass. */
  ghost predicate Ordered(arcs: Arcs, finished: seq<int>) {
    forall j, x :: 0 <= j < |finished| && x in finished[..j] && ReachesVia(arcs, x, finished[j], Elems(finished[..j]))
                   ==> Reaches(arcs, finished[j], x)
  }

  lemma {:induction false} ChainReaches(arcs: Arcs, pending: seq<Frame>, i: nat, j: nat)
    requires Chained(arcs, pending) && i <= j < |pending|
    ensures Reaches(arcs, pending[i].node, pending[j].node)
    decreases j - i
  {
    if i == j {
      ConnectsSelf(arcs, pending[i].node, {});
    } else {
      ConnectsStep(arcs, pending[i].node, pending[i + 1].node, {});
      ChainReaches(arcs, pending, i + 1, j);
      ConnectsTrans(arcs, pending[i].node, pending[i + 1].node, pending[j].node, {});
    }
  }

  function Pushed(arcs: Arcs, s: Search, v: int): Search
    requires v in arcs
  {
    Search(s.visited + {v}, s.finished, s.pending + [Frame(v, Sorted(arcs[v]))])
  }

  /** Walks through finished nodes arrive at visited ones. */
  lemma ArrivesVisited(arcs: Arcs, s: Search, x: int, v: int)
    requires Tracks(arcs, s) && x in s.finished && ReachesVia(arcs, x, v, Elems(s.finished))
    ensures v in s.visited
  {
    var p :| WalkVia(arcs, p, x, v, Elems(s.finished));
    if |p| > 1 {
      var k := |p| - 2;
      assert Step(arcs, p[k], p[k + 1]);
      assert p[k] in s.finished;
    }
  }

  lemma PushKeeps(arcs: Arcs, s: Search, v: int)
    requires Closed(arcs) && Tracks(arcs, s) && Descends(arcs, s)
    requires v in arcs && v !in s.visited
    ensures Tracks(arcs, Pushed(arcs, s, v)) && Descends(arcs, Pushed(arcs, s, v))
  {
    var t := Pushed(arcs, s, v);
    forall w ensures Open(t, w) <==> Open(s, w) || w == v {
      if Open(s, w) {
        var i :| 0 <= i < |s.pending| && s.pending[i].node == w;
        assert t.pending[i].node == w;
      }
      assert t.pending[|s.pending|].node == v;
    }
    forall x, w | x in t.finished && Open(t, w) && ReachesVia(arcs, x, w, Elems(t.finished))
      ensures Reaches(arcs, w, x)
    {
      ArrivesVisited(arcs, s, x, w);
    }
  }

  /** The iterator of frame k has yielded its next child. */
  function Advanced(s: Search, k: nat): Search
    requires k < |s.pending| && s.pending[k].children != []
  {
    s.(pending := s.pending[k := Frame(s.pending[k].node, s.pending[k].children[1..])])
  }

  lemma AdvanceKeeps(arcs: Arcs, s: Search, k: nat)
    requires Tracks(arcs, s) && Chained(arcs, s.pending) && Descends(arcs, s)
    requires k < |s.pending| && s.pending[k].children != []
    requires s.pending[k].children[0] in s.visited
    ensures Tracks(arcs, Advanced(s, k)) && Chained(arcs, Advanced(s, k).pending) && Descends(arcs, Advanced(s, k))
  {
    var t := Advanced(s, k);
    SameOpen(s, t);
    forall c | c in arcs[t.pending[k].node] ensures c in t.visited || c in t.pending[k].children {
      assert s.pending[k].children == [s.pending[k].children[0]] + t.pending[k].children;
    }
  }

  lemma SameOpen(s: Search, t: Search)
    requires |s.pending| == |t.pending|
    requires forall i :: 0 <= i < |s.pending| ==> s.pending[i].node == t.pending[i].node
    ensures forall v :: Open(s, v) <==> Open(t, v)
  {
  }

  function Popped(s: Search): Search
    requires s.pending != []
  {
    var k := |s.pending| - 1;
    Search(s.visited, s.finished + [s.pending[k].node], s.pending[..k])
  }

  lemma PopTracks(arcs: Arcs, s: Search)
    requires Tracks(arcs, s) && Chained(arcs, s.pending)
    requires s.pending != [] && s.pending[|s.pending| - 1].children == []
    ensures Tracks(arcs, Popped(s)) && Chained(arcs, Popped(s).pending)
  {
    var t, k := Popped(s), |s.pending| - 1;
    var frame := s.pending[k];
    assert forall c :: c in arcs[frame.node] ==> c in s.visited || c in frame.children;
    Subset(arcs[s.pending[k].node], s.visited);
    forall v ensures Open(s, v) <==> Open(t, v) || v == s.pending[k].node {
      if Open(s, v) && v != s.pending[k].node {
        var i :| 0 <= i < |s.pending| && s.pending[i].node == v;
        assert t.pending[i].node == v;
      }
      if Open(t, v) {
        var i :| 0 <= i < |t.pending| && t.pending[i].node == v;
        assert s.pending[i].node == v;
      }
    }
  }

  /** Closing a node: the heart of the two-pass argument. */
  lemma PopDescends(arcs: Arcs, s: Search)
    requires Chained(arcs, s.pending) && Descends(arcs, s) && s.pending != []
    ensures Descends(arcs, Popped(s))
  {
    var t, k := Popped(s), |s.pending| - 1;
    var r := s.pending[k].node;
    assert Open(s, r);
    assert Elems(t.finished) == Elems(s.finished) + {r};
    forall x, v | x in t.finished && Open(t, v) && ReachesVia(arcs, x, v, Elems(t.finished))
      ensures Reaches(arcs, v, x)
    {
      var i :| 0 <= i < |t.pending| && t.pending[i].node == v;
      assert s.pending[i].node == v;
      ChainReaches(arcs, s.pending, i, k);
      if x != r {
        SplitAt(arcs, x, v, Elems(s.finished), r);
        if ReachesVia(arcs, x, r, Elems(s.finished)) {
          ConnectsTrans(arcs, v, r, x, {});
        } else {
          assert Open(s, v);
        }
      }
    }
  }

  lemma PopOrdered(arcs: Arcs, s: Search)
    requires Ordered(arcs, s.finished) && Descends(arcs, s) && s.pending != []
    ensures Ordered(arcs, Popped(s).finished)
  {
    var t, r := Popped(s), s.pending[|s.pending| - 1].node;
    assert Open(s, r);
    forall j, x | 0 <= j < |t.finished| && x in t.finished[..j]
                  && ReachesVia(arcs, x, t.finished[j], Elems(t.finished[..j]))
      ensures Reaches(arcs, t.finished[j], x)
    {
      if j < |s.finished| {
        assert t.finished[..j] == s.finished[..j];
      } else {
        assert t.finished[..j] == s.finished;
      }
    }
  }

  ghost predicate Searching(arcs: Arcs, s: Search) {
    Tracks(arcs, s) && Chained(arcs, s.pending) && Descends(arcs, s) && Ordered(arcs, s.finished)
  }

  ghost predicate Fewer(t: Search, s: Search)
    requires s.pending != []
  {
    t.pending != [] && |t.pending| == |s.pending|
    && |t.pending[|t.pending| - 1].children| < |s.pending[|s.pending| - 1].children|
  }

  function Opened(arcs: Arcs, s: Search): Search
    requires s.pending != [] && s.pending[|s.pending| - 1].children != []
    requires s.pending[|s.pending| - 1].children[0] in arcs
  {
    Advanced(Pushed(arcs, s, s.pending[|s.pending| - 1].children[0]), |s.pending| - 1)
  }

  lemma CloseKeeps(arcs: Arcs, s: Search)
    requires Searching(arcs, s) && s.pending != [] && s.pending[|s.pending| - 1].children == []
    ensures Searching(arcs, Popped(s))
  {
    PopTracks(arcs, s);
    PopDescends(arcs, s);
    PopOrdered(arcs, s);
  }

  lemma SkipKeeps(arcs: Arcs, s: Search)
    requires Searching(arcs, s) && s.pending != [] && s.pending[|s.pending| - 1].children != []
    requires s.pending[|s.pending| - 1].children[0] in s.visited
    ensures Searching(arcs, Advanced(s, |s.pending| - 1)) && Fewer(Advanced(s, |s.pending| - 1), s)
  {
    AdvanceKeeps(arcs, s, |s.pending| - 1);
  }

  lemma OpenKeeps(arcs: Arcs, s: Search)
    requires Closed(arcs) && Searching(arcs, s) && s.pending != [] && s.pending[|s.pending| - 1].children != []
    requires s.pending[|s.pending| - 1].children[0] !in s.visited
    ensures s.pending[|s.pending| - 1].children[0] in arcs
    ensures Searching(arcs, Opened(arcs, s))
  {
    var top := |s.pending| - 1;
    assert s.pending[top].children[0] in s.pending[top].children;
    PushKeeps(arcs, s, s.pending[top].children[0]);
    AdvanceKeeps(arcs, Pushed(arcs, s, s.pending[top].children[0]), top);
  }

  /** One turn of the inner loop: draw from the top iterator, and open, skip or close. */
  method Turn(arcs: Arcs, s: Search) returns (t: Search)
    requires Closed(arcs) && Searching(arcs, s) && s.pending != []
    ensures Searching(arcs, t) && s.visited <= t.visited
    ensures t.visited != s.visited || |t.pending| < |s.pending| || Fewer(t, s)
  {
    hide Tracks, Chained, Descends, Ordered;
    var Frame(node, children) := s.pending[|s.pending| - 1];
    if children == [] {
      CloseKeeps(arcs, s);
      return Popped(s);
    }
    var successor := children[0];
    if successor !in s.visited {
      OpenKeeps(arcs, s);
      t := Opened(arcs, s);
    } else {
      SkipKeeps(arcs, s);
      t := Advanced(s, |s.pending| - 1);
    }
  }

  lemma RootKeeps(arcs: Arcs, s: Search, root: int)
    requires Closed(arcs) && Searching(arcs, s) && s.pending == []
    requires root in arcs && root !in s.visited
    ensures Searching(arcs, Pushed(arcs, s, root))
  {
    PushKeeps(arcs, s, root);
  }

  lemma VisitedBound(arcs: Arcs, s: Search)
    requires Searching(arcs, s)
    ensures s.visited <= arcs.Keys
  {
  }

  ghost predicate Between(arcs: Arcs, s: Search) {
    Searching(arcs, s) && s.pending == []
  }

  method VisitRoot(arcs: Arcs, s: Search, root: int) returns (t: Search)
    requires Closed(arcs) && Between(arcs, s) && root in arcs
    ensures Between(arcs, t) && s.visited + {root} <= t.visited
  {
    hide Tracks, Chained, Descends, Ordered;
    if root in s.visited {
      return s;
    }
    RootKeeps(arcs, s, root);
    t := Explore(arcs, Pushed(arcs, s, root));
  }

  /** The first pass. */
  method FinishOrder(arcs: Arcs) returns (finished: seq<int>)
    requires Closed(arcs)
    ensures Elems(finished) == arcs.Keys
    ensures Ordered(arcs, finished)
  {
    hide Tracks, Chained, Descends, Ordered;
    var s := Search({}, [], []);
    var roots := Sorted(arcs.Keys);
    NothingVisited(arcs);
    ghost var done := {};
    for i := 0 to |roots|
      invariant Between(arcs, s)
      invariant done == Elems(roots[..i]) && done <= s.visited
    {
      ElemsNext(roots, i);
      done := done + {roots[i]};
      s := VisitRoot(arcs, s, roots[i]);
    }
    AllFinished(arcs, s, roots);
    finished := s.finished;
  }

  lemma NothingVisited(arcs: Arcs)
    ensures Between(arcs, Search({}, [], []))
  {
  }

  lemma ElemsNext(s: seq<int>, i: nat)
    requires i < |s|
    ensures Elems(s[..i + 1]) == Elems(s[..i]) + {s[i]}
  {
    assert s[..i + 1] == s[..i] + [s[i]];
  }

  lemma AllFinished(arcs: Arcs, s: Search, roots: seq<int>)
    requires Tracks(arcs, s) && s.pending == []
    requires forall v :: v in roots <==> v in arcs
    requires Elems(roots[..|roots|]) <= s.visited
    ensures Elems(s.finished) == arcs.Keys
  {
    assert roots[..|roots|] == roots;
    forall v ensures v in s.finished <==> v in arcs.Keys {
      if v in arcs {
        assert v in Elems(roots);
        assert !Open(s, v);
      }
    }
    Extensional(Elems(s.finished), arcs.Keys);
  }

  method Explore(arcs: Arcs, start: Search) returns (s: Search)
    requires Closed(arcs) && Searching(arcs, start)
    ensures Searching(arcs, s) && s.pending == [] && start.visited <= s.visited
  {
    hide Tracks, Chained, Descends, Ordered;
    s := start;
    while s.pending != []
      invariant Searching(arcs, s) && start.visited <= s.visited
      decreases arcs.Keys - s.visited, |s.pending|, if s.pending == [] then 0 else |s.pending[|s.pending| - 1].children|
    {
      ghost var before := s;
      s := Turn(arcs, s);
      VisitedBound(arcs, before);
      VisitedBound(arcs, s);
      assert s.visited == before.visited || arcs.Keys - s.visited < arcs.Keys - before.visited;
    }
  }

  // ---------- second pass: collect predecessors in reverse finish order ----------

  /** All predecessors of `inner` nodes are in `outer`. */
  ghost predicate PredecessorsIn(back: Arcs, inner: set<int>, outer: set<int>) {
    forall v, u :: v in inner && Step(back, v, u) ==> u in outer
  }

  lemma {:induction false} ReachersInside(arcs: Arcs, back: Arcs, inside: set<int>, p: seq<int>, u: int, v: int, i: nat)
    requires Transposed(arcs, back) && PredecessorsIn(back, inside, inside)
    requires Walk(arcs, p, u, v, {}) && i < |p| && p[i] in inside && u in arcs
    ensures u in inside
    decreases i
  {
    if i > 0 {
      WalkInside(arcs, p, u, v, {});
      assert Step(arcs, p[i - 1], p[i]);
      assert Step(back, p[i], p[i - 1]);
      ReachersInside(arcs, back, inside, p, u, v, i - 1);
    }
  }

  /** Whatever outside `taken` reaches the next root is also reached by it. */
  lemma ReachersReached(arcs: Arcs, back: Arcs, finished: seq<int>, j: nat, taken: set<int>, x: int)
    requires Transposed(arcs, back) && Ordered(arcs, finished) && Elems(finished) == arcs.Keys
    requires j < |finished| && PredecessorsIn(back, taken, taken)
    requires forall k :: j < k < |finished| ==> finished[k] in taken
    requires x in arcs && x !in taken && Reaches(arcs, x, finished[j])
    ensures Reaches(arcs, finished[j], x)
  {
    var root := finished[j];
    var p :| Walk(arcs, p, x, root, {});
    WalkInside(arcs, p, x, root, {});
    forall i | 0 <= i < |p| ensures p[i] in Elems(finished[..j]) + {root} {
      if p[i] in taken {
        ReachersInside(arcs, back, taken, p, x, root, i);
      }
      assert p[i] in arcs;
      assert p[i] in Elems(finished);
      var k :| 0 <= k < |finished| && finished[k] == p[i];
      if k < j {
        assert finished[..j][k] == p[i];
      }
    }
    assert WalkVia(arcs, p, x, root, Elems(finished[..j]) + {root});
    SplitAt(arcs, x, root, Elems(finished[..j]), root);
    assert ReachesVia(arcs, x, root, Elems(finished[..j]));
    if x == root {
      ConnectsSelf(arcs, root, {});
    } else {
      var q :| WalkVia(arcs, q, x, root, Elems(finished[..j]));
      assert q[0] in Elems(finished[..j]);
    }
  }

  ghost predicate Mutual(arcs: Arcs, u: int, v: int) {
    Reaches(arcs, u, v) && Reaches(arcs, v, u)
  }

  /** The unassigned nodes that reach the root are its component. */
  lemma CollectedIsComponent(arcs: Arcs, back: Arcs, finished: seq<int>, j: nat, taken: set<int>, component: set<int>)
    requires Transposed(arcs, back) && Ordered(arcs, finished) && Elems(finished) == arcs.Keys
    requires j < |finished| && PredecessorsIn(back, taken, taken) && finished[j] !in taken
    requires forall k :: j < k < |finished| ==> finished[k] in taken
    requires component <= arcs.Keys - taken && finished[j] in component
    requires forall v :: v in component ==> Reaches(arcs, v, finished[j])
    requires PredecessorsIn(back, taken + component, taken + component)
    ensures IsComponent(arcs, component)
  {
    var root := finished[j];
    forall u, v | u in component && v in arcs ensures v in component <==> Mutual(arcs, u, v) {
      ReachersReached(arcs, back, finished, j, taken, u);
      if v in component {
        ReachersReached(arcs, back, finished, j, taken, v);
        ConnectsTrans(arcs, u, root, v, {});
        ConnectsTrans(arcs, v, root, u, {});
      }
      if Mutual(arcs, u, v) {
        ReachesInside(arcs, back, taken + component, v, u);
        if v in taken {
          ReachesInside(arcs, back, taken, u, v);
        }
      }
    }
  }

  lemma ReachesInside(arcs: Arcs, back: Arcs, inside: set<int>, u: int, v: int)
    requires Transposed(arcs, back) && PredecessorsIn(back, inside, inside)
    requires Reaches(arcs, u, v) && v in inside && u in arcs
    ensures u in inside
  {
    var p :| Walk(arcs, p, u, v, {});
    ReachersInside(arcs, back, inside, p, u, v, |p| - 1);
  }

  /** Collect everything unassigned that reaches `root`. */
  method CollectComponent(arcs: Arcs, back: Arcs, root: int, taken: set<int>)
    returns (component: set<int>, taken': set<int>)
    requires Transposed(arcs, back) && PredecessorsIn(back, taken, taken)
    requires taken <= arcs.Keys && root in arcs && root !in taken
    ensures taken' == taken + component && component <= arcs.Keys - taken && root in component
    ensures forall v :: v in component ==> Reaches(arcs, v, root)
    ensures PredecessorsIn(back, taken', taken')
  {
    component := {};
    var pending := [root];
    taken' := taken + {root};
    ConnectsSelf(arcs, root, {});
    while pending != []
      invariant component + Elems(pending) <= arcs.Keys - taken
      invariant taken' == taken + component + Elems(pending)
      invariant root in taken'
      invariant forall v :: v in component + Elems(pending) ==> Reaches(arcs, v, root)
      invariant PredecessorsIn(back, taken + component, taken')
      decreases arcs.Keys - taken', |pending|
    {
      var node := pending[|pending| - 1];
      assert pending == pending[..|pending| - 1] + [node];
      ElemsAppend(pending[..|pending| - 1], node);
      pending := pending[..|pending| - 1];
      component := component + {node};
      ghost var before, stack := taken', pending;
      taken', pending := TakePredecessors(back, node, taken', pending);
      forall v | v in taken' - before ensures Reaches(arcs, v, root) {
        ConnectsStep(arcs, v, node, {});
        ConnectsTrans(arcs, v, node, root, {});
      }
      assert taken' == before || arcs.Keys - taken' < arcs.Keys - before;
    }
  }

  method TakePredecessors(back: Arcs, node: int, taken: set<int>, pending: seq<int>)
    returns (taken': set<int>, pending': seq<int>)
    requires node in back && Closed(back) && taken <= back.Keys
    ensures taken' == taken + back[node]
    ensures Elems(pending') == Elems(pending) + (taken' - taken)
    ensures taken' == taken ==> pending' == pending
  {
    taken', pending' := taken, pending;
    var order := Sorted(back[node]);
    ghost var seen := {};
    var i := |order|;
    while i > 0
      invariant 0 <= i <= |order|
      invariant seen == Elems(order[i..])
      invariant forall v :: v in taken' <==> v in taken || v in seen
      invariant forall v :: v in pending' <==> v in pending || (v in seen && v !in taken)
      invariant taken' == taken ==> pending' == pending
    {
      i := i - 1;
      ElemsPrevious(order, i);
      seen := seen + {order[i]};
      var predecessor := order[i];
      if predecessor !in taken' {
        taken' := taken' + {predecessor};
        pending' := pending' + [predecessor];
      }
    }
    ElemsSorted(back[node]);
    TakenSplit(taken, taken', pending, pending', seen);
  }

  lemma TakenSplit(taken: set<int>, taken': set<int>, pending: seq<int>, pending': seq<int>, seen: set<int>)
    requires forall v :: v in taken' <==> v in taken || v in seen
    requires forall v :: v in pending' <==> v in pending || (v in seen && v !in taken)
    ensures taken' == taken + seen
    ensures Elems(pending') == Elems(pending) + (taken' - taken)
  {
    forall v ensures v in taken' <==> v in taken + seen {
      assert v in taken' <==> v in taken || v in seen;
    }
    Extensional(taken', taken + seen);
    forall v ensures v in Elems(pending') <==> v in Elems(pending) + (taken' - taken) {
      assert v in pending' <==> v in pending || (v in seen && v !in taken);
    }
    Extensional(Elems(pending'), Elems(pending) + (taken' - taken));
  }

  lemma ElemsPrevious(s: seq<int>, i: nat)
    requires i < |s|
    ensures Elems(s[i..]) == Elems(s[i + 1..]) + {s[i]}
  {
    assert s[i..] == [s[i]] + s[i + 1..];
  }

  lemma ElemsAppend(s: seq<int>, x: int)
    ensures Elems(s + [x]) == Elems(s) + {x}
  {
  }

  lemma ElemsSorted(nodes: set<int>)
    ensures Elems(Sorted(nodes)[0..]) == nodes
  {
    var order := Sorted(nodes);
    assert order[0..] == order;
    Extensional(Elems(order), nodes);
  }

  ghost predicate IsComponent(arcs: Arcs, c: set<int>) {
    && c != {}
    && c <= arcs.Keys
    && forall u, v :: u in c && v in arcs ==> (v in c <==> Mutual(arcs, u, v))
  }

  ghost predicate Partitions(components: seq<set<int>>, nodes: set<int>) {
    && (forall v :: v in nodes <==> exists i :: 0 <= i < |components| && v in components[i])
    && (forall i, j :: 0 <= i < j < |components| ==> components[i] !! components[j])
  }

  lemma PartitionGrows(components: seq<set<int>>, nodes: set<int>, c: set<int>)
    requires Partitions(components, nodes) && c !! nodes
    ensures Partitions(components + [c], nodes + c)
  {
    var more := components + [c];
    forall v | v in nodes + c ensures exists i :: 0 <= i < |more| && v in more[i] {
      if v in nodes {
        var i :| 0 <= i < |components| && v in components[i];
        assert v in more[i];
      } else {
        assert v in more[|components|];
      }
    }
    forall i, j | 0 <= i < j < |more| ensures more[i] !! more[j] {
      if j == |components| {
        forall v | v in more[i] ensures v in nodes {
        }
        Subset(more[i], nodes);
      }
    }
  }

  lemma AllTaken(nodes: set<int>, finished: seq<int>, taken: set<int>)
    requires Elems(finished) == nodes && taken <= nodes
    requires forall k :: 0 <= k < |finished| ==> finished[k] in taken
    ensures taken == nodes
  {
    forall v | v in nodes ensures v in taken {
      assert v in Elems(finished);
    }
    Extensional(taken, nodes);
  }

  /** The components of the reachable blocks: a partition into classes of mutual reachability. */
  method Components(g: Graph) returns (components: seq<set<int>>)
    ensures Partitions(components, g.nodes)
    ensures forall c :: c in components ==> IsComponent(g.Out(), c)
  {
    hide Ordered, Transposed, IsComponent;
    var successors, predecessors := g.Out(), g.In();
    GraphTransposed(g);
    var finished := FinishOrder(successors);
    components := [];
    var taken := {};
    var j := |finished|;
    while j > 0
      invariant 0 <= j <= |finished|
      invariant taken <= g.nodes && Partitions(components, taken)
      invariant PredecessorsIn(predecessors, taken, taken)
      invariant forall k :: j <= k < |finished| ==> finished[k] in taken
      invariant forall c :: c in components ==> IsComponent(successors, c)
    {
      j := j - 1;
      var root := finished[j];
      if root in taken {
        continue;
      }
      assert root in Elems(finished);
      ghost var before := taken;
      var component;
      component, taken := CollectComponent(successors, predecessors, root, taken);
      CollectedIsComponent(successors, predecessors, finished, j, before, component);
      PartitionGrows(components, before, component);
      components := components + [component];
    }
    AllTaken(g.nodes, finished, taken);
  }
}
