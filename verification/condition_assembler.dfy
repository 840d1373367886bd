/**
 The iterative assembler that turns a branch graph into one expression: an explicit stack, a
 memo table and an on-path set, against the plain recursive definition and a step-by-step walk.
 */
module ConditionAssembler {
  import opened Options
  import opened Graphs
  import opened Sets
  import opened Decisions

  datatype DecisionNode = DecisionNode(test: Expr, trueOffset: int, falseOffset: int)

  type Nodes = map<int, DecisionNode>

  ghost predicate TestsWellFormed(nodes: Nodes) {
    forall o :: o in nodes ==> WellFormed(nodes[o].test)
  }

  function Arms(nodes: Nodes): Arcs {
    map o | o in nodes :: {nodes[o].trueOffset, nodes[o].falseOffset}
  }

  /** v is reached from u by at least one branch. */
  ghost predicate Leads(nodes: Nodes, u: int, v: int) {
    exists c :: Step(Arms(nodes), u, c) && Reaches(Arms(nodes), c, v)
  }

  ghost predicate CycleReachable(nodes: Nodes, entry: int) {
    exists x :: Reaches(Arms(nodes), entry, x) && Leads(nodes, x, x)
  }

  // ---------- the plain recursive definition ----------

  /** The branch graph below one offset, unshared. */
  datatype Tree = End(offset: int) | Branching(test: Expr, whenTrue: Tree, whenFalse: Tree)

  /** The tree below `offset`, or nothing when some path has more than `fuel` branches. */
  ghost function Unfold(nodes: Nodes, offset: int, fuel: nat): Option<Tree>
    decreases fuel
  {
    if offset !in nodes then Some(End(offset))
    else if fuel == 0 then None
    else
      var whenTrue := Unfold(nodes, nodes[offset].trueOffset, fuel - 1);
      var whenFalse := Unfold(nodes, nodes[offset].falseOffset, fuel - 1);
      if whenTrue.None? || whenFalse.None? then None else
        Some(Branching(nodes[offset].test, whenTrue.value, whenFalse.value))
  }

  ghost predicate TreeWellFormed(tree: Tree) {
    tree.Branching? ==> WellFormed(tree.test) && TreeWellFormed(tree.whenTrue) && TreeWellFormed(tree.whenFalse)
  }

  /** Combine a tree from its leaves up. */
  ghost function Fold(trueEndpoint: int, tree: Tree): (e: Expr)
    requires TreeWellFormed(tree)
    ensures WellFormed(e)
  {
    match tree
    case End(offset) => Constant(offset == trueEndpoint)
    case Branching(test, whenTrue, whenFalse) =>
      var t, f := Fold(trueEndpoint, whenTrue), Fold(trueEndpoint, whenFalse);
      CombineWellFormed(test, t, f);
      CombineDecision(test, t, f)
  }

  lemma {:induction false} UnfoldWellFormed(nodes: Nodes, offset: int, fuel: nat)
    requires TestsWellFormed(nodes) && Unfold(nodes, offset, fuel).Some?
    ensures TreeWellFormed(Unfold(nodes, offset, fuel).value)
    decreases fuel
  {
    if offset in nodes {
      UnfoldWellFormed(nodes, nodes[offset].trueOffset, fuel - 1);
      UnfoldWellFormed(nodes, nodes[offset].falseOffset, fuel - 1);
    }
  }

  /** The expression below `offset`, by plain recursion over all paths of at most `fuel` branches. */
  ghost function Build(nodes: Nodes, trueEndpoint: int, offset: int, fuel: nat): (r: Option<Expr>)
    requires TestsWellFormed(nodes)
    ensures r.Some? ==> WellFormed(r.value)
  {
    if Unfold(nodes, offset, fuel).None? then None else
      UnfoldWellFormed(nodes, offset, fuel);
      Some(Fold(trueEndpoint, Unfold(nodes, offset, fuel).value))
  }

  /** The recursion step of the definition. */
  lemma BuildStep(nodes: Nodes, trueEndpoint: int, offset: int, fuel: nat, t: Expr, f: Expr)
    requires TestsWellFormed(nodes) && offset in nodes
    requires Build(nodes, trueEndpoint, nodes[offset].trueOffset, fuel) == Some(t)
    requires Build(nodes, trueEndpoint, nodes[offset].falseOffset, fuel) == Some(f)
    ensures Build(nodes, trueEndpoint, offset, fuel + 1) == Some(CombineDecision(nodes[offset].test, t, f))
  {
  }

  lemma {:induction false} UnfoldMore(nodes: Nodes, offset: int, fuel: nat, more: nat)
    requires fuel <= more
    ensures Unfold(nodes, offset, fuel).Some? ==> Unfold(nodes, offset, more) == Unfold(nodes, offset, fuel)
    decreases fuel
  {
    if offset in nodes && fuel > 0 {
      UnfoldMore(nodes, nodes[offset].trueOffset, fuel - 1, more - 1);
      UnfoldMore(nodes, nodes[offset].falseOffset, fuel - 1, more - 1);
    }
  }

  /** What unfolds, unfolds everywhere below. */
  lemma {:induction false} UnfoldBelow(nodes: Nodes, p: seq<int>, u: int, v: int, fuel: nat)
    requires Walk(Arms(nodes), p, u, v, {}) && Unfold(nodes, u, fuel).Some?
    ensures Unfold(nodes, v, fuel).Some?
  {
    if |p| > 1 {
      assert Step(Arms(nodes), p[0], p[1]);
      UnfoldMore(nodes, p[1], fuel - 1, fuel);
      WalkSuffix(Arms(nodes), p, u, v, {}, 1);
      UnfoldBelow(nodes, p[1..], p[1], v, fuel);
    }
  }

  /** Nothing on a cycle unfolds. */
  lemma {:induction false} CycleNeverUnfolds(nodes: Nodes, x: int, fuel: nat)
    requires Leads(nodes, x, x)
    ensures Unfold(nodes, x, fuel).None?
  {
    if fuel > 0 {
      CycleNeverUnfolds(nodes, x, fuel - 1);
      var c :| Step(Arms(nodes), x, c) && Reaches(Arms(nodes), c, x);
      var p :| Walk(Arms(nodes), p, c, x, {});
      if Unfold(nodes, c, fuel - 1).Some? {
        UnfoldBelow(nodes, p, c, x, fuel - 1);
      }
    }
  }

  lemma UnfoldedAcyclic(nodes: Nodes, entry: int, fuel: nat)
    requires Unfold(nodes, entry, fuel).Some?
    ensures !CycleReachable(nodes, entry)
  {
    forall x | Reaches(Arms(nodes), entry, x) ensures !Leads(nodes, x, x) {
      var p :| Walk(Arms(nodes), p, entry, x, {});
      UnfoldBelow(nodes, p, entry, x, fuel);
      if Leads(nodes, x, x) {
        CycleNeverUnfolds(nodes, x, fuel);
      }
    }
  }

  /** Without a reachable cycle the nodes on a path are distinct, so |nodes| is fuel enough. */
  lemma {:induction false} AcyclicUnfolds(nodes: Nodes, entry: int, offset: int, path: set<int>, fuel: nat)
    requires !CycleReachable(nodes, entry) && Reaches(Arms(nodes), entry, offset)
    requires path <= nodes.Keys && |path| + fuel >= |nodes|
    requires forall v :: v in path ==> Leads(nodes, v, offset)
    ensures Unfold(nodes, offset, fuel).Some?
    decreases fuel
  {
    if offset in nodes {
      assert offset !in path;
      SubsetSize(path + {offset}, nodes.Keys);
      forall c | Step(Arms(nodes), offset, c) ensures Unfold(nodes, c, fuel - 1).Some? {
        LeadsOn(nodes, entry, offset, path, c);
        AcyclicUnfolds(nodes, entry, c, path + {offset}, fuel - 1);
      }
      assert Step(Arms(nodes), offset, nodes[offset].trueOffset);
      assert Step(Arms(nodes), offset, nodes[offset].falseOffset);
    }
  }

  lemma LeadsOn(nodes: Nodes, entry: int, offset: int, path: set<int>, c: int)
    requires Reaches(Arms(nodes), entry, offset) && Step(Arms(nodes), offset, c)
    requires forall v :: v in path ==> Leads(nodes, v, offset)
    ensures Reaches(Arms(nodes), entry, c)
    ensures forall v :: v in path + {offset} ==> Leads(nodes, v, c)
  {
    var arms := Arms(nodes);
    ConnectsSelf(arms, c, {});
    ConnectsStep(arms, offset, c, {});
    ConnectsTrans(arms, entry, offset, c, {});
    forall v | v in path ensures Leads(nodes, v, c) {
      var d :| Step(arms, v, d) && Reaches(arms, d, offset);
      ConnectsTrans(arms, d, offset, c, {});
    }
  }

  // ---------- walking the branch graph ----------

  /** Run the predicates one by one from `at` until an endpoint, in at most `fuel` branches. */
  function WalkGraph<S>(nodes: Nodes, at: int, env: Env<S>, s: S, fuel: nat): Option<(int, S)>
    decreases fuel
  {
    if at !in nodes then Some((at, s))
    else if fuel == 0 then None
    else
      var (b, s1) := Eval(nodes[at].test, env, s);
      WalkGraph(nodes, if b then nodes[at].trueOffset else nodes[at].falseOffset, env, s1, fuel - 1)
  }

  /** The nodes whose predicates the walk runs, in order. */
  function Visited<S>(nodes: Nodes, at: int, env: Env<S>, s: S, fuel: nat): seq<int>
    decreases fuel
  {
    if at !in nodes || fuel == 0 then []
    else
      var (b, s1) := Eval(nodes[at].test, env, s);
      [at] + Visited(nodes, if b then nodes[at].trueOffset else nodes[at].falseOffset, env, s1, fuel - 1)
  }

  /** The state after running the predicates of some nodes in order. */
  function RunTests<S>(nodes: Nodes, visited: seq<int>, env: Env<S>, s: S): S
    requires forall i :: 0 <= i < |visited| ==> visited[i] in nodes
  {
    if visited == [] then s else
      RunTests(nodes, visited[1..], env, Eval(nodes[visited[0]].test, env, s).1)
  }

  lemma {:induction false} VisitedReached<S(!new)>(nodes: Nodes, at: int, env: Env<S>, s: S, fuel: nat)
    ensures forall o :: o in Visited(nodes, at, env, s, fuel) ==> o in nodes && Reaches(Arms(nodes), at, o)
    decreases fuel
  {
    if at in nodes && fuel > 0 {
      var (b, s1) := Eval(nodes[at].test, env, s);
      var next := if b then nodes[at].trueOffset else nodes[at].falseOffset;
      VisitedReached(nodes, next, env, s1, fuel - 1);
      ConnectsSelf(Arms(nodes), at, {});
      ConnectsStep(Arms(nodes), at, next, {});
      forall o | o in Visited(nodes, next, env, s1, fuel - 1) ensures Reaches(Arms(nodes), at, o) {
        ConnectsTrans(Arms(nodes), at, next, o, {});
      }
    }
  }

  lemma ReturnIsCycle(nodes: Nodes, entry: int, at: int, next: int)
    requires Reaches(Arms(nodes), entry, at) && Step(Arms(nodes), at, next)
    ensures Reaches(Arms(nodes), next, at) ==> CycleReachable(nodes, entry)
  {
    if Reaches(Arms(nodes), next, at) {
      assert Leads(nodes, at, at);
    }
  }

  /** Known nodes, none twice. */
  ghost predicate EachOnce(nodes: Nodes, visited: seq<int>) {
    && (forall i :: 0 <= i < |visited| ==> visited[i] in nodes)
    && (forall i, j :: 0 <= i < j < |visited| ==> visited[i] != visited[j])
  }

  /** Without a reachable cycle each predicate runs at most once, and a completed walk ran exactly these. */
  lemma {:induction false} EachRunsOnce<S(!new)>(nodes: Nodes, entry: int, at: int, env: Env<S>, s: S, fuel: nat)
    requires !CycleReachable(nodes, entry) && Reaches(Arms(nodes), entry, at)
    ensures var visited := Visited(nodes, at, env, s, fuel);
            && EachOnce(nodes, visited)
            && (WalkGraph(nodes, at, env, s, fuel).Some? ==>
                  WalkGraph(nodes, at, env, s, fuel).value.1 == RunTests(nodes, visited, env, s))
    decreases fuel
  {
    VisitedReached(nodes, at, env, s, fuel);
    if at in nodes && fuel > 0 {
      var (b, s1) := Eval(nodes[at].test, env, s);
      var next := if b then nodes[at].trueOffset else nodes[at].falseOffset;
      var rest := Visited(nodes, next, env, s1, fuel - 1);
      assert Visited(nodes, at, env, s, fuel) == [at] + rest;
      ConnectsStep(Arms(nodes), at, next, {});
      ConnectsTrans(Arms(nodes), entry, at, next, {});
      EachRunsOnce(nodes, entry, next, env, s1, fuel - 1);
      VisitedReached(nodes, next, env, s1, fuel - 1);
      ReturnIsCycle(nodes, entry, at, next);
      assert at !in rest;
      ConsOnce(nodes, at, rest);
    }
  }

  lemma ConsOnce(nodes: Nodes, at: int, rest: seq<int>)
    requires at in nodes && at !in rest && EachOnce(nodes, rest)
    ensures EachOnce(nodes, [at] + rest)
  {
  }

  /** The folded tree and the walk run the same predicates in the same order, to the same end. */
  lemma {:induction false} FoldMeansWalk<S(!new)>(nodes: Nodes, trueEndpoint: int, at: int, fuel: nat, env: Env<S>,
                                                  s: S)
    requires TestsWellFormed(nodes) && Complementary(env) && Unfold(nodes, at, fuel).Some?
    ensures TreeWellFormed(Unfold(nodes, at, fuel).value)
    ensures WalkGraph(nodes, at, env, s, fuel).Some?
    ensures var end := WalkGraph(nodes, at, env, s, fuel).value;
            && end.0 !in nodes
            && Reaches(Arms(nodes), at, end.0)
            && Eval(Fold(trueEndpoint, Unfold(nodes, at, fuel).value), env, s) == (end.0 == trueEndpoint, end.1)
    decreases fuel
  {
    UnfoldWellFormed(nodes, at, fuel);
    if at !in nodes {
      ConnectsSelf(Arms(nodes), at, {});
    } else {
      var tree := Unfold(nodes, at, fuel).value;
      CombineKeeps(tree.test, Fold(trueEndpoint, tree.whenTrue), Fold(trueEndpoint, tree.whenFalse), env, s);
      var (b, s1) := Eval(tree.test, env, s);
      var next := if b then nodes[at].trueOffset else nodes[at].falseOffset;
      FoldMeansWalk(nodes, trueEndpoint, next, fuel - 1, env, s1);
      ConnectsStep(Arms(nodes), at, next, {});
      ConnectsTrans(Arms(nodes), at, next, WalkGraph(nodes, next, env, s1, fuel - 1).value.0, {});
    }
  }

  // ---------- the assembler loop ----------

  /** A stack entry: first visit, or return after both arms. */
  datatype Item = Item(offset: int, expanded: bool)

  datatype Assembly = Assembly(expressions: map<int, Expr>, active: set<int>, pending: seq<Item>)

  ghost function Done(nodes: Nodes, a: Assembly): set<int> {
    a.expressions.Keys * nodes.Keys
  }

  /** Every recorded expression is the recursive one, within `depth` branches. */
  ghost predicate Memoised(nodes: Nodes, trueEndpoint: int, expressions: map<int, Expr>, depth: nat)
    requires TestsWellFormed(nodes)
  {
    forall o :: o in expressions ==> Build(nodes, trueEndpoint, o, depth) == Some(expressions[o])
  }

  /** The on-path set is the set of expanded entries, each on the stack once and not yet finished. */
  ghost predicate OnPath(nodes: Nodes, a: Assembly) {
    && a.active <= nodes.Keys
    && (forall o :: o in a.active ==> o !in a.expressions)
    && (forall i :: 0 <= i < |a.pending| && a.pending[i].expanded ==> a.pending[i].offset in a.active)
    && (forall o :: o in a.active ==> exists i :: 0 <= i < |a.pending| && a.pending[i] == Item(o, true))
    && (forall i, j :: 0 <= i < j < |a.pending| && a.pending[i].expanded && a.pending[j].expanded
                       ==> a.pending[i].offset != a.pending[j].offset)
  }

  /** Entries are reachable from the graph entry, and from every expanded entry below them. */
  ghost predicate Stacked(nodes: Nodes, entry: int, pending: seq<Item>) {
    && (forall i :: 0 <= i < |pending| ==> Reaches(Arms(nodes), entry, pending[i].offset))
    && (forall i, j :: 0 <= i < j < |pending| && pending[i].expanded ==>
         Leads(nodes, pending[i].offset, pending[j].offset))
  }

  ghost predicate Above(pending: seq<Item>, i: int, o: int)
    requires -1 <= i
  {
    exists j :: i < j < |pending| && pending[j].offset == o
  }

  /** Each arm of an expanded entry is finished or still above it. */
  ghost predicate Covered(nodes: Nodes, a: Assembly) {
    forall i, o :: 0 <= i < |a.pending| && a.pending[i].expanded && Step(Arms(nodes), a.pending[i].offset, o)
                   ==> o in a.expressions || Above(a.pending, i, o)
  }

  ghost predicate Assembling(nodes: Nodes, trueEndpoint: int, entry: int, a: Assembly)
    requires TestsWellFormed(nodes)
  {
    && Memoised(nodes, trueEndpoint, a.expressions, |Done(nodes, a)|)
    && OnPath(nodes, a)
    && Stacked(nodes, entry, a.pending)
    && Covered(nodes, a)
    && (entry in a.expressions || Above(a.pending, -1, entry))
  }

  function Top(a: Assembly): Item
    requires a.pending != []
  {
    a.pending[|a.pending| - 1]
  }

  function Rest(a: Assembly): seq<Item>
    requires a.pending != []
  {
    a.pending[..|a.pending| - 1]
  }

  lemma AboveRest(a: Assembly, i: int, o: int)
    requires a.pending != [] && -1 <= i && Above(a.pending, i, o)
    ensures o == Top(a).offset || Above(Rest(a), i, o)
  {
    var j :| i < j < |a.pending| && a.pending[j].offset == o;
    if j < |a.pending| - 1 {
      assert Rest(a)[j].offset == o;
    }
  }

  /** Popping an entry whose offset is finished, or has just become so. */
  lemma PopCovered(nodes: Nodes, a: Assembly, expressions: map<int, Expr>, active: set<int>)
    requires Covered(nodes, a) && a.pending != []
    requires a.expressions.Keys <= expressions.Keys && Top(a).offset in expressions
    ensures Covered(nodes, Assembly(expressions, active, Rest(a)))
  {
    var b := Assembly(expressions, active, Rest(a));
    forall i, o | 0 <= i < |b.pending| && b.pending[i].expanded && Step(Arms(nodes), b.pending[i].offset, o)
      ensures o in b.expressions || Above(b.pending, i, o)
    {
      assert a.pending[i] == b.pending[i];
      if o !in a.expressions {
        AboveRest(a, i, o);
      }
    }
  }

  lemma PopStacked(nodes: Nodes, entry: int, a: Assembly)
    requires Stacked(nodes, entry, a.pending) && a.pending != []
    ensures Stacked(nodes, entry, Rest(a))
  {
  }

  /** Popping a first visit keeps the on-path set. */
  lemma PopOnPath(nodes: Nodes, a: Assembly, expressions: map<int, Expr>)
    requires OnPath(nodes, a) && a.pending != [] && !Top(a).expanded
    requires forall o :: o in expressions && o !in a.expressions ==> o !in nodes
    ensures OnPath(nodes, Assembly(expressions, a.active, Rest(a)))
  {
    forall o | o in a.active ensures exists i :: 0 <= i < |Rest(a)| && Rest(a)[i] == Item(o, true) {
      var i :| 0 <= i < |a.pending| && a.pending[i] == Item(o, true);
      assert Rest(a)[i] == Item(o, true);
    }
  }

  lemma SkipKeeps(nodes: Nodes, trueEndpoint: int, entry: int, a: Assembly)
    requires TestsWellFormed(nodes) && Assembling(nodes, trueEndpoint, entry, a) && a.pending != []
    requires Top(a).offset in a.expressions
    ensures Assembling(nodes, trueEndpoint, entry, a.(pending := Rest(a)))
  {
    assert a.pending[|a.pending| - 1] == Top(a);
    PopOnPath(nodes, a, a.expressions);
    PopStacked(nodes, entry, a);
    PopCovered(nodes, a, a.expressions, a.active);
    if entry !in a.expressions {
      AboveRest(a, -1, entry);
    }
  }

  lemma EndpointMemoised(nodes: Nodes, trueEndpoint: int, expressions: map<int, Expr>, depth: nat, x: int)
    requires TestsWellFormed(nodes) && Memoised(nodes, trueEndpoint, expressions, depth)
    requires x !in nodes
    ensures Memoised(nodes, trueEndpoint, expressions[x := Constant(x == trueEndpoint)], depth)
  {
  }

  lemma EndpointDone(nodes: Nodes, a: Assembly, e: Expr)
    requires a.pending != [] && Top(a).offset !in nodes
    ensures Done(nodes, Assembly(a.expressions[Top(a).offset := e], a.active, Rest(a))) == Done(nodes, a)
  {
  }

  lemma EndpointKeeps(nodes: Nodes, trueEndpoint: int, entry: int, a: Assembly)
    requires TestsWellFormed(nodes) && Assembling(nodes, trueEndpoint, entry, a) && a.pending != []
    requires Top(a).offset !in nodes
    ensures Assembling(nodes, trueEndpoint, entry,
              Assembly(a.expressions[Top(a).offset := Constant(Top(a).offset == trueEndpoint)], a.active, Rest(a)))
  {
    var expressions := a.expressions[Top(a).offset := Constant(Top(a).offset == trueEndpoint)];
    EndpointMemoised(nodes, trueEndpoint, a.expressions, |Done(nodes, a)|, Top(a).offset);
    EndpointDone(nodes, a, Constant(Top(a).offset == trueEndpoint));
    assert a.pending[|a.pending| - 1] == Top(a);
    PopOnPath(nodes, a, expressions);
    PopStacked(nodes, entry, a);
    PopCovered(nodes, a, expressions, a.active);
    if entry !in expressions {
      AboveRest(a, -1, entry);
    }
  }

  /** Returning to an expanded entry finds both arms finished. */
  lemma ArmsFinished(nodes: Nodes, trueEndpoint: int, a: Assembly)
    requires TestsWellFormed(nodes) && Memoised(nodes, trueEndpoint, a.expressions, |Done(nodes, a)|)
    requires Covered(nodes, a) && a.pending != [] && Top(a).expanded && Top(a).offset in nodes
    ensures nodes[Top(a).offset].trueOffset in a.expressions && nodes[Top(a).offset].falseOffset in a.expressions
    ensures WellFormed(a.expressions[nodes[Top(a).offset].trueOffset])
    ensures WellFormed(a.expressions[nodes[Top(a).offset].falseOffset])
  {
    var k := |a.pending| - 1;
    forall o | Step(Arms(nodes), a.pending[k].offset, o) ensures o in a.expressions {
      assert !Above(a.pending, k, o);
    }
    assert Step(Arms(nodes), Top(a).offset, nodes[Top(a).offset].trueOffset);
    assert Step(Arms(nodes), Top(a).offset, nodes[Top(a).offset].falseOffset);
  }

  lemma FinishMemoised(nodes: Nodes, trueEndpoint: int, expressions: map<int, Expr>, depth: nat, x: int, e: Expr)
    requires TestsWellFormed(nodes) && Memoised(nodes, trueEndpoint, expressions, depth)
    requires Build(nodes, trueEndpoint, x, depth + 1) == Some(e)
    ensures Memoised(nodes, trueEndpoint, expressions[x := e], depth + 1)
  {
    hide Unfold, Fold, TestsWellFormed;
    forall o | o in expressions ensures Build(nodes, trueEndpoint, o, depth + 1) == Some(expressions[o]) {
      UnfoldMore(nodes, o, depth, depth + 1);
    }
  }

  lemma FinishDone(nodes: Nodes, a: Assembly, e: Expr)
    requires a.pending != [] && Top(a).offset in nodes && Top(a).offset !in a.expressions
    ensures Done(nodes, Assembly(a.expressions[Top(a).offset := e], a.active - {Top(a).offset}, Rest(a)))
            == Done(nodes, a) + {Top(a).offset}
    ensures Top(a).offset !in Done(nodes, a)
  {
  }

  lemma FinishOnPath(nodes: Nodes, a: Assembly, e: Expr)
    requires OnPath(nodes, a) && a.pending != [] && Top(a).expanded
    ensures OnPath(nodes, Assembly(a.expressions[Top(a).offset := e], a.active - {Top(a).offset}, Rest(a)))
  {
    var b := Assembly(a.expressions[Top(a).offset := e], a.active - {Top(a).offset}, Rest(a));
    forall o | o in b.active ensures exists i :: 0 <= i < |b.pending| && b.pending[i] == Item(o, true) {
      var i :| 0 <= i < |a.pending| && a.pending[i] == Item(o, true);
      assert b.pending[i] == Item(o, true);
    }
  }

  lemma FinishKeeps(nodes: Nodes, trueEndpoint: int, entry: int, a: Assembly, e: Expr)
    requires TestsWellFormed(nodes) && Assembling(nodes, trueEndpoint, entry, a) && a.pending != []
    requires Top(a).expanded && Top(a).offset in nodes && Top(a).offset !in a.expressions
    requires nodes[Top(a).offset].trueOffset in a.expressions && nodes[Top(a).offset].falseOffset in a.expressions
    requires Build(nodes, trueEndpoint, Top(a).offset, |Done(nodes, a)| + 1) == Some(e)
    ensures Assembling(nodes, trueEndpoint, entry,
              Assembly(a.expressions[Top(a).offset := e], a.active - {Top(a).offset}, Rest(a)))
  {
    hide OnPath, Stacked, Covered, Memoised;
    FinishMemoised(nodes, trueEndpoint, a.expressions, |Done(nodes, a)|, Top(a).offset, e);
    FinishDone(nodes, a, e);
    FinishOnPath(nodes, a, e);
    PopStacked(nodes, entry, a);
    PopCovered(nodes, a, a.expressions[Top(a).offset := e], a.active - {Top(a).offset});
    if entry !in a.expressions {
      AboveRest(a, -1, entry);
    }
  }

  function Expanded(nodes: Nodes, a: Assembly): seq<Item>
    requires a.pending != [] && Top(a).offset in nodes
  {
    var node := nodes[Top(a).offset];
    Rest(a) + [Item(Top(a).offset, true)] + [Item(node.falseOffset, false)] + [Item(node.trueOffset, false)]
  }

  /** An arm of the top entry is reachable and below every expanded entry. */
  lemma ArmStacked(nodes: Nodes, entry: int, a: Assembly, c: int)
    requires Stacked(nodes, entry, a.pending) && a.pending != [] && Step(Arms(nodes), Top(a).offset, c)
    ensures Reaches(Arms(nodes), entry, c) && Leads(nodes, Top(a).offset, c)
    ensures forall i :: 0 <= i < |a.pending| - 1 && a.pending[i].expanded ==> Leads(nodes, a.pending[i].offset, c)
  {
    var x, arms, k := Top(a).offset, Arms(nodes), |a.pending| - 1;
    assert a.pending[k].offset == x;
    ConnectsSelf(arms, c, {});
    assert Step(arms, x, c) && Reaches(arms, c, c);
    ConnectsStep(arms, x, c, {});
    ConnectsTrans(arms, entry, x, c, {});
    forall i | 0 <= i < k && a.pending[i].expanded ensures Leads(nodes, a.pending[i].offset, c) {
      assert Leads(nodes, a.pending[i].offset, a.pending[k].offset);
      var d :| Step(arms, a.pending[i].offset, d) && Reaches(arms, d, x);
      ConnectsTrans(arms, d, x, c, {});
    }
  }

  lemma ExpandStacked(nodes: Nodes, entry: int, a: Assembly)
    requires Stacked(nodes, entry, a.pending) && a.pending != [] && Top(a).offset in nodes
    ensures Stacked(nodes, entry, Expanded(nodes, a))
  {
    var x, k, q := Top(a).offset, |a.pending| - 1, Expanded(nodes, a);
    var node := nodes[x];
    assert a.pending[k].offset == x;
    assert Step(Arms(nodes), x, node.trueOffset) && Step(Arms(nodes), x, node.falseOffset);
    ArmStacked(nodes, entry, a, node.trueOffset);
    ArmStacked(nodes, entry, a, node.falseOffset);
    forall i, j | 0 <= i < j < |q| && q[i].expanded ensures Leads(nodes, q[i].offset, q[j].offset) {
      assert i <= k && q[i].offset == a.pending[i].offset && (i < k ==> a.pending[i].expanded);
      if j <= k {
        assert q[j].offset == a.pending[j].offset;
      }
    }
  }

  lemma ExpandCovered(nodes: Nodes, a: Assembly)
    requires Covered(nodes, a) && a.pending != [] && Top(a).offset in nodes
    ensures Covered(nodes, Assembly(a.expressions, a.active + {Top(a).offset}, Expanded(nodes, a)))
  {
    var x, k := Top(a).offset, |a.pending| - 1;
    var b := Assembly(a.expressions, a.active + {x}, Expanded(nodes, a));
    forall i, o | 0 <= i < |b.pending| && b.pending[i].expanded && Step(Arms(nodes), b.pending[i].offset, o)
      ensures o in b.expressions || Above(b.pending, i, o)
    {
      if i == k {
        assert b.pending[k + 1].offset == nodes[x].falseOffset && b.pending[k + 2].offset == nodes[x].trueOffset;
      } else {
        assert b.pending[i] == a.pending[i];
        if o !in a.expressions {
          AboveSame(a, b.pending, i, o);
        }
      }
    }
  }

  lemma AboveSame(a: Assembly, q: seq<Item>, i: int, o: int)
    requires -1 <= i && Above(a.pending, i, o) && |a.pending| <= |q|
    requires forall j :: 0 <= j < |a.pending| ==> q[j].offset == a.pending[j].offset
    ensures Above(q, i, o)
  {
    var j :| i < j < |a.pending| && a.pending[j].offset == o;
    assert q[j].offset == o;
  }

  lemma ExpandOnPath(nodes: Nodes, a: Assembly)
    requires OnPath(nodes, a) && a.pending != [] && !Top(a).expanded
    requires Top(a).offset in nodes && Top(a).offset !in a.expressions && Top(a).offset !in a.active
    ensures OnPath(nodes, Assembly(a.expressions, a.active + {Top(a).offset}, Expanded(nodes, a)))
  {
    var x, k := Top(a).offset, |a.pending| - 1;
    var b := Assembly(a.expressions, a.active + {x}, Expanded(nodes, a));
    forall o | o in b.active ensures exists i :: 0 <= i < |b.pending| && b.pending[i] == Item(o, true) {
      if o == x {
        assert b.pending[k] == Item(x, true);
      } else {
        var i :| 0 <= i < |a.pending| && a.pending[i] == Item(o, true);
        assert b.pending[i] == Item(o, true);
      }
    }
    forall i | 0 <= i < |b.pending| && b.pending[i].expanded
      ensures i <= k && (i < k ==> b.pending[i] == a.pending[i])
    {
    }
  }

  lemma ExpandKeeps(nodes: Nodes, trueEndpoint: int, entry: int, a: Assembly)
    requires TestsWellFormed(nodes) && Assembling(nodes, trueEndpoint, entry, a) && a.pending != []
    requires !Top(a).expanded
    requires Top(a).offset in nodes && Top(a).offset !in a.expressions && Top(a).offset !in a.active
    ensures Assembling(nodes, trueEndpoint, entry,
              Assembly(a.expressions, a.active + {Top(a).offset}, Expanded(nodes, a)))
  {
    hide OnPath, Stacked, Covered, Memoised;
    ExpandOnPath(nodes, a);
    ExpandStacked(nodes, entry, a);
    ExpandCovered(nodes, a);
    if entry !in a.expressions {
      AboveSame(a, Expanded(nodes, a), -1, entry);
    }
  }

  /** Meeting an on-path offset again exhibits a cycle. */
  lemma RevisitIsCycle(nodes: Nodes, entry: int, a: Assembly)
    requires OnPath(nodes, a) && Stacked(nodes, entry, a.pending) && a.pending != []
    requires !Top(a).expanded && Top(a).offset in a.active
    ensures CycleReachable(nodes, entry)
  {
    var k := |a.pending| - 1;
    var i :| 0 <= i < |a.pending| && a.pending[i] == Item(Top(a).offset, true);
    assert Leads(nodes, a.pending[i].offset, a.pending[k].offset);
    assert Reaches(Arms(nodes), entry, a.pending[k].offset);
  }

  function WorkLimit(nodes: Nodes): nat {
    var limit := |nodes| * 6 + 16;
    if limit < 64 then 64 else limit
  }

  /** Finished and on-path nodes together are at most all nodes. */
  lemma CountBound(nodes: Nodes, a: Assembly)
    requires OnPath(nodes, a)
    ensures |Done(nodes, a)| + |a.active| <= |nodes|
  {
    forall o | o in Done(nodes, a) ensures o !in a.active {
      assert o in a.expressions;
    }
    DisjointSizes(Done(nodes, a), a.active, nodes.Keys);
  }

  /** Pops and stacked entries are paid for by expansions, three each. */
  ghost predicate Paid(nodes: Nodes, a: Assembly, workCount: int) {
    workCount + |a.pending| == 1 + 3 * (|Done(nodes, a)| + |a.active|)
  }

  lemma EndpointPaid(nodes: Nodes, a: Assembly, e: Expr, workCount: int)
    requires Paid(nodes, a, workCount) && a.pending != [] && Top(a).offset !in nodes
    ensures Paid(nodes, Assembly(a.expressions[Top(a).offset := e], a.active, Rest(a)), workCount + 1)
  {
    EndpointDone(nodes, a, e);
  }

  lemma FinishPaid(nodes: Nodes, a: Assembly, e: Expr, workCount: int)
    requires Paid(nodes, a, workCount) && a.pending != [] && Top(a).offset in nodes
    requires Top(a).offset in a.active && Top(a).offset !in a.expressions
    ensures Paid(nodes, Assembly(a.expressions[Top(a).offset := e], a.active - {Top(a).offset}, Rest(a)), workCount + 1)
  {
    var x := Top(a).offset;
    FinishDone(nodes, a, e);
    assert |a.active - {x}| == |a.active| - 1;
  }

  ghost predicate Working(nodes: Nodes, trueEndpoint: int, entry: int, a: Assembly, workCount: int)
    requires TestsWellFormed(nodes)
  {
    Assembling(nodes, trueEndpoint, entry, a) && Paid(nodes, a, workCount)
  }

  /** Handle one popped entry; `cyclic` reports an offset met again on its own path. */
  method Process(nodes: Nodes, trueEndpoint: int, a: Assembly, ghost entry: int, ghost workCount: int)
    returns (b: Assembly, cyclic: bool)
    requires TestsWellFormed(nodes) && Working(nodes, trueEndpoint, entry, a, workCount) && a.pending != []
    ensures if cyclic then CycleReachable(nodes, entry) else Working(nodes, trueEndpoint, entry, b, workCount + 1)
  {
    hide OnPath, Stacked, Covered, Memoised;
    var Item(offset, expanded) := a.pending[|a.pending| - 1];
    var pending := a.pending[..|a.pending| - 1];
    b, cyclic := a, false;
    if offset in a.expressions {
      SkipKeeps(nodes, trueEndpoint, entry, a);
      return a.(pending := pending), false;
    }
    if offset !in nodes {
      EndpointKeeps(nodes, trueEndpoint, entry, a);
      EndpointPaid(nodes, a, Constant(offset == trueEndpoint), workCount);
      return Assembly(a.expressions[offset := Constant(offset == trueEndpoint)], a.active, pending), false;
    }
    var node := nodes[offset];
    if expanded {
      ArmsFinished(nodes, trueEndpoint, a);
      var e := CombineDecision(node.test, a.expressions[node.trueOffset], a.expressions[node.falseOffset]);
      FinishTurn(nodes, trueEndpoint, entry, a, e, workCount);
      return Assembly(a.expressions[offset := e], a.active - {offset}, pending), false;
    }
    if offset in a.active {
      RevisitIsCycle(nodes, entry, a);
      return a, true;
    }
    ExpandKeeps(nodes, trueEndpoint, entry, a);
    pending := pending + [Item(offset, true)] + [Item(node.falseOffset, false)] + [Item(node.trueOffset, false)];
    b := Assembly(a.expressions, a.active + {offset}, pending);
  }

  lemma FinishTurn(nodes: Nodes, trueEndpoint: int, entry: int, a: Assembly, e: Expr, workCount: int)
    requires TestsWellFormed(nodes) && Working(nodes, trueEndpoint, entry, a, workCount) && a.pending != []
    requires Top(a).expanded && Top(a).offset in nodes && Top(a).offset !in a.expressions
    requires var node := nodes[Top(a).offset];
             && node.trueOffset in a.expressions && node.falseOffset in a.expressions
             && WellFormed(a.expressions[node.trueOffset]) && WellFormed(a.expressions[node.falseOffset])
             && e == CombineDecision(node.test, a.expressions[node.trueOffset], a.expressions[node.falseOffset])
    ensures Working(nodes, trueEndpoint, entry,
              Assembly(a.expressions[Top(a).offset := e], a.active - {Top(a).offset}, Rest(a)), workCount + 1)
  {
    var node := nodes[Top(a).offset];
    BuildStep(nodes, trueEndpoint, Top(a).offset, |Done(nodes, a)|,
              a.expressions[node.trueOffset], a.expressions[node.falseOffset]);
    FinishKeeps(nodes, trueEndpoint, entry, a, e);
    assert a.pending[|a.pending| - 1] == Top(a);
    FinishPaid(nodes, a, e, workCount);
  }

  lemma WithinLimit(nodes: Nodes, trueEndpoint: int, entry: int, a: Assembly, workCount: int)
    requires TestsWellFormed(nodes) && Working(nodes, trueEndpoint, entry, a, workCount) && a.pending != []
    ensures workCount + 1 <= 3 * |nodes| + 1 <= WorkLimit(nodes)
  {
    CountBound(nodes, a);
  }

  /**
   The assembler fails exactly when a cycle is reachable from the entry; otherwise it returns
   the recursive definition. It pops at most three entries per node and one more, so its work
   limit never fires, and an expanded entry always finds both arms resolved.
   */
  method Assemble(nodes: Nodes, entryOffset: int, trueEndpoint: int) returns (r: Option<Expr>)
    requires TestsWellFormed(nodes)
    ensures r == Build(nodes, trueEndpoint, entryOffset, |nodes|)
    ensures r == None <==> CycleReachable(nodes, entryOffset)
  {
    var a := Assembly(map[], {}, [Item(entryOffset, false)]);
    var workCount := 0;
    var workLimit := WorkLimit(nodes);
    Started(nodes, trueEndpoint, entryOffset);
    while a.pending != []
      invariant Working(nodes, trueEndpoint, entryOffset, a, workCount)
      decreases 3 * |nodes| + 1 - workCount
    {
      WithinLimit(nodes, trueEndpoint, entryOffset, a, workCount);
      var cyclic;
      a, cyclic := Process(nodes, trueEndpoint, a, entryOffset, workCount);
      workCount := workCount + 1;
      if workCount > workLimit {
        assert false;
      }
      if cyclic {
        CycleMeansNone(nodes, trueEndpoint, entryOffset, |nodes|);
        return None;
      }
    }
    Finished(nodes, trueEndpoint, entryOffset, a);
    r := Some(a.expressions[entryOffset]);
  }

  lemma Started(nodes: Nodes, trueEndpoint: int, entry: int)
    requires TestsWellFormed(nodes)
    ensures Assembling(nodes, trueEndpoint, entry, Assembly(map[], {}, [Item(entry, false)]))
    ensures Paid(nodes, Assembly(map[], {}, [Item(entry, false)]), 0)
  {
    var a := Assembly(map[], {}, [Item(entry, false)]);
    ConnectsSelf(Arms(nodes), entry, {});
    assert Above(a.pending, -1, entry) by {
      assert a.pending[0].offset == entry;
    }
    assert Done(nodes, a) == {};
  }

  lemma Finished(nodes: Nodes, trueEndpoint: int, entry: int, a: Assembly)
    requires TestsWellFormed(nodes) && Assembling(nodes, trueEndpoint, entry, a) && a.pending == []
    ensures entry in a.expressions
    ensures Build(nodes, trueEndpoint, entry, |nodes|) == Some(a.expressions[entry])
    ensures !CycleReachable(nodes, entry)
  {
    assert !Above(a.pending, -1, entry);
    SubsetSize(Done(nodes, a), nodes.Keys);
    UnfoldMore(nodes, entry, |Done(nodes, a)|, |nodes|);
    UnfoldedAcyclic(nodes, entry, |nodes|);
  }

  lemma CycleMeansNone(nodes: Nodes, trueEndpoint: int, entry: int, fuel: nat)
    requires TestsWellFormed(nodes) && CycleReachable(nodes, entry)
    ensures Build(nodes, trueEndpoint, entry, fuel).None?
  {
    if Build(nodes, trueEndpoint, entry, fuel).Some? {
      UnfoldedAcyclic(nodes, entry, fuel);
    }
  }

  // ---------- the recovered condition ----------

  /** No walk leads anywhere but to the two endpoints. */
  ghost predicate TwoEndpoints(nodes: Nodes, entry: int, trueEndpoint: int, falseEndpoint: int) {
    && trueEndpoint != falseEndpoint
    && forall x :: Reaches(Arms(nodes), entry, x) && x !in nodes ==> x == trueEndpoint || x == falseEndpoint
  }

  /**
   For every acyclic decision graph with two endpoints, evaluating the assembled expression
   and walking the graph agree for all states and all complementary environments: same truth
   value, same effects in the same order, and the walk ends within as many branches as there
   are nodes. The effects are those of the visited predicates in order, each run once.
   */
  lemma AssembledMeansWalk<S(!new)>(nodes: Nodes, entry: int, trueEndpoint: int, falseEndpoint: int, env: Env<S>, s: S)
    requires TestsWellFormed(nodes) && Complementary(env)
    requires TwoEndpoints(nodes, entry, trueEndpoint, falseEndpoint)
    requires !CycleReachable(nodes, entry)
    ensures Build(nodes, trueEndpoint, entry, |nodes|).Some?
    ensures var e := Build(nodes, trueEndpoint, entry, |nodes|).value;
            var (b, s1) := Eval(e, env, s);
            WalkGraph(nodes, entry, env, s, |nodes|) == Some((if b then trueEndpoint else falseEndpoint, s1))
    ensures var visited := Visited(nodes, entry, env, s, |nodes|);
            && EachOnce(nodes, visited)
            && Eval(Build(nodes, trueEndpoint, entry, |nodes|).value, env, s).1 == RunTests(nodes, visited, env, s)
  {
    ConnectsSelf(Arms(nodes), entry, {});
    EachRunsOnce(nodes, entry, entry, env, s, |nodes|);
    AcyclicUnfolds(nodes, entry, entry, {}, |nodes|);
    FoldMeansWalk(nodes, trueEndpoint, entry, |nodes|, env, s);
  }

  /** On integers compared as usual, whatever reading them does, nothing more is needed. */
  lemma AssembledOnIntegers<S(!new)>(nodes: Nodes, entry: int, trueEndpoint: int, falseEndpoint: int,
                                     o: Operands<S>, s: S)
    requires TestsWellFormed(nodes) && TwoEndpoints(nodes, entry, trueEndpoint, falseEndpoint)
    requires !CycleReachable(nodes, entry)
    ensures Build(nodes, trueEndpoint, entry, |nodes|).Some?
    ensures var (b, s1) := Eval(Build(nodes, trueEndpoint, entry, |nodes|).value, OnIntegers(o), s);
            WalkGraph(nodes, entry, OnIntegers(o), s, |nodes|) == Some((if b then trueEndpoint else falseEndpoint, s1))
  {
    IntegersComplementary(o);
    AssembledMeansWalk(nodes, entry, trueEndpoint, falseEndpoint, OnIntegers(o), s);
  }
}
