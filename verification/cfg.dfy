/** Splitting an instruction stream into basic blocks, and the block graph as a refinement of instruction flow. */
module ControlFlowGraphs {
  import opened Options
  import opened Graphs
  import opened Sets
  import opened Sorting
  import opened ExceptionTables
  import opened Opcodes

  datatype Instruction = Instruction(offset: int, kind: Kind, target: Option<int>, attr: Attr)

  /** The recorded target, or the integer operand of a jump. */
  function InstructionTarget(i: Instruction): Option<int> {
    if i.target.Some? then i.target else if JumpKind(i.kind) && i.attr.IntAttr? then Some(i.attr.n) else None
  }

  /** A maximal straight-line interval; only the reachability flag is ever updated. */
  class BasicBlock {
    const index: int
    const start: int
    const end: int
    const instructions: seq<Instruction>
    var reachable: bool

    constructor (index: int, start: int, end: int, instructions: seq<Instruction>)
      ensures this.index == index && this.start == start && this.end == end
      ensures this.instructions == instructions && !reachable
    {
      this.index, this.start, this.end, this.instructions := index, start, end, instructions;
      reachable := false;
    }
  }

  datatype ControlFlowGraph = ControlFlowGraph(
    blocks: seq<BasicBlock>, edges: seq<Edge>, entry: int, offsetToBlock: map<int, int>)
  {
    /** The outgoing edges other than exception edges. */
    function NormalFrom(k: int): seq<Edge> {
      NormalOnly(EdgesFrom(edges, k))
    }

    /** The kind of the last instruction of block k. */
    function LastKind(k: int): Kind
      requires 0 <= k < |blocks| && blocks[k].instructions != []
    {
      LastOf(blocks[k]).kind
    }

    /** Blocks are numbered by position and nonempty, edges and offsets stay among them. */
    ghost predicate WellFormed() {
      && Numbered(blocks)
      && (forall e :: e in edges ==> 0 <= e.source < |blocks| && 0 <= e.target < |blocks|)
      && (forall o :: o in offsetToBlock ==> 0 <= offsetToBlock[o] < |blocks|)
    }

    /** What the dominator analysis reads. */
    function View(): Graph
      reads blocks
    {
      Graph((set k | 0 <= k < |blocks| && blocks[k].reachable), edges, entry)
    }
  }

  datatype CfgError =
    | MissingRegionOffset(offset: int)
    | MissingTarget(offset: int, target: int)
    | UntargetedJump(offset: int)

  datatype Result = Ok(cfg: ControlFlowGraph) | Err(error: CfgError)

  function EdgeKinds(kind: Kind): (EdgeKind, EdgeKind) {
    match kind
    case PopJump(_, WhenFalse) => (IfFalse, IfTrue)
    case PopJump(_, WhenTrue) => (IfTrue, IfFalse)
    case PopJump(_, WhenNotNone) => (IfNotNone, IfNone)
    case PopJump(_, WhenNone) => (IfNone, IfNotNone)
    case JumpIfOrPop(truth) => if truth then (IfTrue, IfFalse) else (IfFalse, IfTrue)
    case ForIter => (Exhausted, Iterate)
    case Send => (Returned, Yielded)
    case _ => (Jump, Fallthrough)
  }

  /** p is a run along arbitrary edges. */
  ghost predicate Follows(cfg: ControlFlowGraph, p: seq<Edge>) {
    && (forall i :: 0 <= i < |p| ==> p[i] in cfg.edges)
    && (forall i :: 0 <= i < |p| - 1 ==> p[i].target == p[i + 1].source)
  }

  // ---------- instruction flow ----------

  ghost predicate Increasing(code: seq<Instruction>) {
    forall i, j :: 0 <= i < j < |code| ==> code[i].offset < code[j].offset
  }

  /** One step of control between instruction indices: fall through, jump, or raise into a handler. */
  predicate Flows(code: seq<Instruction>, regions: seq<Region>, i: int, j: int)
    requires 0 <= i < |code| && 0 <= j < |code|
  {
    || (j == i + 1 && !Terminator(code[i].kind) && !UnconditionalJump(code[i].kind))
    || (!Terminator(code[i].kind) && InstructionTarget(code[i]) == Some(code[j].offset))
    || (exists r :: r in regions && r.start <= code[i].offset < r.end && r.target == code[j].offset)
  }

  ghost function InstructionFlow(code: seq<Instruction>, regions: seq<Region>): Arcs {
    map i | 0 <= i < |code| :: FlowsFrom(code, regions, i)
  }

  ghost function FlowsFrom(code: seq<Instruction>, regions: seq<Region>, i: int): set<int>
    requires 0 <= i < |code|
  {
    set j | 0 <= j < |code| && Flows(code, regions, i, j)
  }

  // ---------- leaders ----------

  /** Instruction j makes a block begin at offset o. */
  ghost predicate Marks(code: seq<Instruction>, j: int, o: int)
    requires 0 <= j < |code|
  {
    || InstructionTarget(code[j]) == Some(o)
    || ((InstructionTarget(code[j]).Some? || Terminator(code[j].kind)) && j + 1 < |code| && code[j + 1].offset == o)
  }

  ghost predicate Bounds(regions: seq<Region>, o: int) {
    exists r :: r in regions && (o == r.start || o == r.end || o == r.target)
  }

  /** A block must begin at offset o. */
  ghost predicate Leader(code: seq<Instruction>, regions: seq<Region>, o: int)
    requires code != []
  {
    || o == code[0].offset
    || Bounds(regions, o)
    || MarkedBefore(code, |code|, o)
  }

  ghost predicate MarkedBefore(code: seq<Instruction>, n: nat, o: int)
    requires n <= |code|
  {
    exists j :: 0 <= j < n && Marks(code, j, o)
  }

  lemma MarkedNext(code: seq<Instruction>, n: nat, o: int)
    requires n < |code|
    ensures MarkedBefore(code, n + 1, o) <==> MarkedBefore(code, n, o) || Marks(code, n, o)
  {
  }

  function Offsets(code: seq<Instruction>): set<int> {
    set i | 0 <= i < |code| :: code[i].offset
  }

  /** Every referenced offset is an instruction. */
  ghost predicate Resolvable(code: seq<Instruction>, regions: seq<Region>) {
    && (forall r :: r in regions ==> r.start in Offsets(code) && r.target in Offsets(code))
    && (forall j :: 0 <= j < |code| ==> Resolved(code, code[j]))
  }

  ghost predicate Resolved(code: seq<Instruction>, i: Instruction) {
    InstructionTarget(i).Some? ==> InstructionTarget(i).value in Offsets(code)
  }

  /** What each error says about the input. */
  ghost predicate Justified(code: seq<Instruction>, regions: seq<Region>, e: CfgError) {
    match e
    case MissingRegionOffset(o) => o !in Offsets(code) && exists r :: r in regions && (o == r.start || o == r.target)
    case MissingTarget(o, t) =>
      t !in Offsets(code) && exists i :: 0 <= i < |code| && code[i].offset == o && InstructionTarget(code[i]) == Some(t)
    case UntargetedJump(o) =>
      exists i :: 0 <= i < |code| && code[i].offset == o && UnconditionalJump(code[i].kind) &&
          InstructionTarget(code[i]) == None
  }

  method RegionLeaders(code: seq<Instruction>, regions: seq<Region>)
    returns (leaders: set<int>, error: Option<CfgError>)
    requires code != []
    ensures error == None <==> forall r :: r in regions ==> r.start in Offsets(code) && r.target in Offsets(code)
    ensures error.Some? ==> Justified(code, regions, error.value)
    ensures error == None ==> leaders <= Offsets(code)
    ensures error == None ==> forall o :: o in Offsets(code) ==>
              (o in leaders <==> o == code[0].offset || Bounds(regions, o))
  {
    leaders, error := {code[0].offset}, None;
    for k := 0 to |regions|
      invariant leaders <= Offsets(code)
      invariant forall r :: r in regions[..k] ==> r.start in Offsets(code) && r.target in Offsets(code)
      invariant forall o :: o in Offsets(code) ==> (o in leaders <==> o == code[0].offset || Bounds(regions[..k], o))
    {
      var region := regions[k];
      assert regions[..k + 1] == regions[..k] + [region];
      forall o ensures Bounds(regions[..k + 1], o) <==>
                       Bounds(regions[..k], o) || o == region.start || o == region.end || o == region.target {
        BoundsNext(regions[..k], region, o);
      }
      if region.start !in Offsets(code) {
        assert region in regions;
        return leaders, Some(MissingRegionOffset(region.start));
      }
      if region.target !in Offsets(code) {
        assert region in regions;
        return leaders, Some(MissingRegionOffset(region.target));
      }
      leaders := leaders + {region.start, region.target};
      if region.end in Offsets(code) {
        leaders := leaders + {region.end};
      }
    }
    assert regions[..|regions|] == regions;
  }

  lemma BoundsNext(regions: seq<Region>, region: Region, o: int)
    ensures Bounds(regions + [region], o) <==>
              Bounds(regions, o) || o == region.start || o == region.end || o == region.target
  {
    assert region in regions + [region];
    if Bounds(regions, o) {
      var r :| r in regions && (o == r.start || o == r.end || o == r.target);
      assert r in regions + [region];
    }
  }

  method CollectLeaders(code: seq<Instruction>, regions: seq<Region>)
    returns (leaders: set<int>, error: Option<CfgError>)
    requires code != []
    ensures error == None <==> Resolvable(code, regions)
    ensures error.Some? ==> Justified(code, regions, error.value)
    ensures error == None ==> forall o :: o in leaders <==> o in Offsets(code) && Leader(code, regions, o)
    ensures error == None ==> code[0].offset in leaders
  {
    leaders, error := RegionLeaders(code, regions);
    if error != None {
      return;
    }
    for j := 0 to |code|
      invariant leaders <= Offsets(code)
      invariant forall k :: 0 <= k < j ==> Resolved(code, code[k])
      invariant forall o :: o in Offsets(code) ==>
                  (o in leaders <==> o == code[0].offset || Bounds(regions, o) || MarkedBefore(code, j, o))
    {
      forall o ensures MarkedBefore(code, j + 1, o) <==> MarkedBefore(code, j, o) || Marks(code, j, o) {
        MarkedNext(code, j, o);
      }
      var target := InstructionTarget(code[j]);
      if target.Some? {
        if target.value !in Offsets(code) {
          assert !Resolved(code, code[j]);
          return leaders, Some(MissingTarget(code[j].offset, target.value));
        }
        leaders := leaders + {target.value};
      }
      if (target.Some? || Terminator(code[j].kind)) && j + 1 < |code| {
        assert code[j + 1].offset in Offsets(code);
        leaders := leaders + {code[j + 1].offset};
      }
    }
  }

  // ---------- blocks ----------

  /** The instruction indices at which blocks begin. */
  ghost predicate Cuts(code: seq<Instruction>, cuts: seq<int>) {
    && cuts != []
    && cuts[0] == 0
    && (forall k :: 0 <= k < |cuts| ==> 0 <= cuts[k] < |code|)
    && (forall j, k :: 0 <= j < k < |cuts| ==> cuts[j] < cuts[k])
  }

  function Stop(code: seq<Instruction>, cuts: seq<int>, k: nat): int
    requires k < |cuts|
  {
    if k + 1 < |cuts| then cuts[k + 1] else |code|
  }

  ghost predicate InBlock(code: seq<Instruction>, cuts: seq<int>, k: int, i: int) {
    0 <= k < |cuts| && cuts[k] <= i < Stop(code, cuts, k)
  }

  ghost function FindBlock(code: seq<Instruction>, cuts: seq<int>, i: int, k: nat): (b: int)
    requires Cuts(code, cuts) && k < |cuts| && 0 <= i < Stop(code, cuts, k)
    ensures InBlock(code, cuts, b, i)
    decreases k
  {
    if cuts[k] <= i then k else FindBlock(code, cuts, i, k - 1)
  }

  lemma BlockUnique(code: seq<Instruction>, cuts: seq<int>, i: int, j: int, k: int)
    requires Cuts(code, cuts) && InBlock(code, cuts, j, i) && InBlock(code, cuts, k, i)
    ensures j == k
  {
  }

  /** The block of an instruction. */
  ghost function BlockOf(code: seq<Instruction>, cuts: seq<int>, i: int): (k: int)
    requires Cuts(code, cuts) && 0 <= i < |code|
    ensures InBlock(code, cuts, k, i)
  {
    FindBlock(code, cuts, i, |cuts| - 1)
  }

  /** Block k is the interval of code between two cuts. */
  ghost predicate IsBlock(code: seq<Instruction>, cuts: seq<int>, k: nat, b: BasicBlock)
    requires Cuts(code, cuts) && k < |cuts|
  {
    var stop := Stop(code, cuts, k);
    && cuts[k] < stop <= |code|
    && b.index == k
    && b.start == code[cuts[k]].offset
    && b.end == (if stop < |code| then code[stop].offset else code[|code| - 1].offset + 2)
    && b.instructions == code[cuts[k]..stop]
  }

  ghost predicate Tiles(code: seq<Instruction>, cuts: seq<int>, blocks: seq<BasicBlock>) {
    && Cuts(code, cuts)
    && |blocks| == |cuts|
    && forall k :: 0 <= k < |cuts| ==> IsBlock(code, cuts, k, blocks[k])
  }

  ghost predicate Locates(code: seq<Instruction>, cuts: seq<int>, offsetToBlock: map<int, int>) {
    && Cuts(code, cuts)
    && offsetToBlock.Keys == Offsets(code)
    && forall i {:trigger offsetToBlock[code[i].offset]} {:trigger BlockOf(code, cuts, i)} ::
         0 <= i < |code| ==> offsetToBlock[code[i].offset] == BlockOf(code, cuts, i)
  }

  /** Cut the code at its leaders. */
  method FindCuts(code: seq<Instruction>, leaders: set<int>) returns (cuts: seq<int>)
    requires code != [] && code[0].offset in leaders
    ensures Cuts(code, cuts)
    ensures cuts == Sorted(set i | 0 <= i < |code| && code[i].offset in leaders)
  {
    cuts := Sorted(set i | 0 <= i < |code| && code[i].offset in leaders);
    assert 0 in cuts;
    var k :| 0 <= k < |cuts| && cuts[k] == 0;
    forall k | 0 <= k < |cuts| ensures 0 <= cuts[k] < |code| {
      assert cuts[k] in cuts;
    }
  }

  /** Record the block of each instruction of one interval. */
  method Locate(code: seq<Instruction>, cuts: seq<int>, k: nat, known: map<int, int>)
    returns (offsetToBlock: map<int, int>)
    requires Increasing(code) && Cuts(code, cuts) && k < |cuts|
    requires LocatesBelow(code, cuts, cuts[k], known)
    ensures LocatesBelow(code, cuts, Stop(code, cuts, k), offsetToBlock)
  {
    offsetToBlock := known;
    for i := cuts[k] to Stop(code, cuts, k)
      invariant offsetToBlock.Keys == Offsets(code[..i])
      invariant forall j :: 0 <= j < i ==> offsetToBlock[code[j].offset] == BlockOf(code, cuts, j)
    {
      BlockUnique(code, cuts, i, k, BlockOf(code, cuts, i));
      OffsetsNext(code, i);
      offsetToBlock := offsetToBlock[code[i].offset := k];
    }
  }

  lemma OffsetsNext(code: seq<Instruction>, i: nat)
    requires i < |code|
    ensures Offsets(code[..i + 1]) == Offsets(code[..i]) + {code[i].offset}
  {
    forall o | o in Offsets(code[..i + 1]) ensures o in Offsets(code[..i]) + {code[i].offset} {
      var j :| 0 <= j < i + 1 && code[..i + 1][j].offset == o;
      if j < i {
        assert code[..i][j].offset == o;
      }
    }
    forall o | o in Offsets(code[..i]) ensures o in Offsets(code[..i + 1]) {
      var j :| 0 <= j < i && code[..i][j].offset == o;
      assert code[..i + 1][j].offset == o;
    }
    assert code[..i + 1][i].offset == code[i].offset;
    Extensional(Offsets(code[..i + 1]), Offsets(code[..i]) + {code[i].offset});
  }

  method MakeBlock(code: seq<Instruction>, cuts: seq<int>, k: nat) returns (block: BasicBlock)
    requires Cuts(code, cuts) && k < |cuts|
    ensures fresh(block) && !block.reachable && IsBlock(code, cuts, k, block)
  {
    var stop := if k + 1 < |cuts| then cuts[k + 1] else |code|;
    var instructions := code[cuts[k]..stop];
    var end := if stop < |code| then code[stop].offset else instructions[|instructions| - 1].offset + 2;
    block := new BasicBlock(k, instructions[0].offset, end, instructions);
  }

  /** The instructions before n are located. */
  ghost predicate LocatesBelow(code: seq<Instruction>, cuts: seq<int>, n: int, offsetToBlock: map<int, int>) {
    && Cuts(code, cuts)
    && 0 <= n <= |code|
    && offsetToBlock.Keys == Offsets(code[..n])
    && forall i :: 0 <= i < n ==> offsetToBlock[code[i].offset] == BlockOf(code, cuts, i)
  }

  lemma LocatesAll(code: seq<Instruction>, cuts: seq<int>, offsetToBlock: map<int, int>)
    requires LocatesBelow(code, cuts, |code|, offsetToBlock)
    ensures Locates(code, cuts, offsetToBlock)
  {
    assert code[..|code|] == code;
  }

  lemma LocatesNone(code: seq<Instruction>, cuts: seq<int>)
    requires Cuts(code, cuts)
    ensures LocatesBelow(code, cuts, cuts[0], map[])
  {
  }

  method SplitBlocks(code: seq<Instruction>, cuts: seq<int>)
    returns (blocks: seq<BasicBlock>, offsetToBlock: map<int, int>)
    requires Increasing(code) && Cuts(code, cuts)
    ensures Tiles(code, cuts, blocks) && Locates(code, cuts, offsetToBlock)
    ensures forall b :: b in blocks ==> fresh(b) && !b.reachable
  {
    hide IsBlock, LocatesBelow, Locates, Increasing;
    blocks, offsetToBlock := [], map[];
    LocatesNone(code, cuts);
    for k := 0 to |cuts|
      invariant |blocks| == k
      invariant forall j :: 0 <= j < k ==> IsBlock(code, cuts, j, blocks[j])
      invariant forall b :: b in blocks ==> fresh(b) && !b.reachable
      invariant LocatesBelow(code, cuts, if k < |cuts| then cuts[k] else |code|, offsetToBlock)
    {
      var block := MakeBlock(code, cuts, k);
      blocks := blocks + [block];
      offsetToBlock := Locate(code, cuts, k, offsetToBlock);
    }
    LocatesAll(code, cuts, offsetToBlock);
  }

  // ---------- edges ----------

  function LastOf(b: BasicBlock): Instruction
    requires b.instructions != []
  {
    b.instructions[|b.instructions| - 1]
  }

  /** The normal edges that leave block k. */
  ghost predicate NormalEdge(blocks: seq<BasicBlock>, offsetToBlock: map<int, int>, k: int, e: Edge)
    requires 0 <= k < |blocks| && blocks[k].instructions != []
  {
    var last := LastOf(blocks[k]);
    var target := InstructionTarget(last);
    && e.source == k
    && !Terminator(last.kind)
    && (|| (target.Some? && target.value in offsetToBlock && e.target == offsetToBlock[target.value]
            && e.kind == (if UnconditionalJump(last.kind) then Jump else EdgeKinds(last.kind).0))
        || (!UnconditionalJump(last.kind) && k + 1 < |blocks| && e.target == k + 1
            && e.kind == (if target.Some? then EdgeKinds(last.kind).1 else Fallthrough)))
  }

  ghost predicate ExceptionEdge(blocks: seq<BasicBlock>, r: Region, offsetToBlock: map<int, int>, e: Edge) {
    && 0 <= e.source < |blocks|
    && r.start <= blocks[e.source].start < r.end
    && r.target in offsetToBlock && e.target == offsetToBlock[r.target]
    && e.kind == Exception
  }

  ghost predicate BlockEdge(blocks: seq<BasicBlock>, regions: seq<Region>, offsetToBlock: map<int, int>, e: Edge) {
    || (0 <= e.source < |blocks| && blocks[e.source].instructions != [] &&
        NormalEdge(blocks, offsetToBlock, e.source, e))
    || exists r :: r in regions && ExceptionEdge(blocks, r, offsetToBlock, e)
  }

  ghost predicate UntargetedLast(b: BasicBlock, e: CfgError) {
    && b.instructions != [] && UnconditionalJump(LastOf(b).kind) && InstructionTarget(LastOf(b)) == None
    && e == UntargetedJump(LastOf(b).offset)
  }

  /** The edges of one block's last instruction. */
  method BlockEdges(blocks: seq<BasicBlock>, offsetToBlock: map<int, int>, k: nat)
    returns (edges: seq<Edge>, error: Option<CfgError>)
    requires k < |blocks| && blocks[k].instructions != [] && blocks[k].index == k
    requires InstructionTarget(LastOf(blocks[k])).Some? ==> InstructionTarget(LastOf(blocks[k])).value in offsetToBlock
    ensures error == None <==>
              (UnconditionalJump(LastOf(blocks[k]).kind) ==> InstructionTarget(LastOf(blocks[k])).Some?)
    ensures error.Some? ==> error.value == UntargetedJump(LastOf(blocks[k]).offset)
    ensures error == None ==> forall e :: e in edges <==> NormalEdge(blocks, offsetToBlock, k, e)
  {
    var block := blocks[k];
    var last := LastOf(block);
    var target := InstructionTarget(last);
    edges, error := [], None;
    if Terminator(last.kind) {
      return;
    }
    if UnconditionalJump(last.kind) {
      if target == None {
        return [], Some(UntargetedJump(last.offset));
      }
      return [Edge(block.index, offsetToBlock[target.value], Jump)], None;
    }
    if target.Some? {
      var (jumpKind, fallthroughKind) := EdgeKinds(last.kind);
      edges := [Edge(block.index, offsetToBlock[target.value], jumpKind)];
      if block.index + 1 < |blocks| {
        edges := edges + [Edge(block.index, block.index + 1, fallthroughKind)];
      }
      return;
    }
    if block.index + 1 < |blocks| {
      edges := [Edge(block.index, block.index + 1, Fallthrough)];
    }
  }

  ghost predicate Numbered(blocks: seq<BasicBlock>) {
    forall k :: 0 <= k < |blocks| ==> blocks[k].index == k && blocks[k].instructions != []
  }

  ghost predicate LastsResolved(blocks: seq<BasicBlock>, offsetToBlock: map<int, int>)
    requires Numbered(blocks)
  {
    forall k :: 0 <= k < |blocks| && InstructionTarget(LastOf(blocks[k])).Some?
                ==> InstructionTarget(LastOf(blocks[k])).value in offsetToBlock
  }

  ghost predicate LastsTargeted(blocks: seq<BasicBlock>)
    requires Numbered(blocks)
  {
    forall k :: 0 <= k < |blocks| && UnconditionalJump(LastOf(blocks[k]).kind)
                ==> InstructionTarget(LastOf(blocks[k])).Some?
  }

  method NormalEdges(blocks: seq<BasicBlock>, offsetToBlock: map<int, int>)
    returns (edges: seq<Edge>, error: Option<CfgError>)
    requires Numbered(blocks) && LastsResolved(blocks, offsetToBlock)
    ensures error == None <==> LastsTargeted(blocks)
    ensures error.Some? ==> exists k :: 0 <= k < |blocks| && UntargetedLast(blocks[k], error.value)
    ensures error == None ==> forall e :: e in edges <==>
              0 <= e.source < |blocks| && NormalEdge(blocks, offsetToBlock, e.source, e)
  {
    edges, error := [], None;
    for k := 0 to |blocks|
      invariant error == None
      invariant forall j :: 0 <= j < k && UnconditionalJump(LastOf(blocks[j]).kind)
                            ==> InstructionTarget(LastOf(blocks[j])).Some?
      invariant forall e :: e in edges <==> 0 <= e.source < k && NormalEdge(blocks, offsetToBlock, e.source, e)
    {
      var more;
      more, error := BlockEdges(blocks, offsetToBlock, k);
      if error != None {
        assert UntargetedLast(blocks[k], error.value);
        return;
      }
      edges := edges + more;
    }
  }

  method ExceptionEdges(blocks: seq<BasicBlock>, regions: seq<Region>, offsetToBlock: map<int, int>)
    returns (edges: seq<Edge>)
    requires Numbered(blocks) && forall r :: r in regions ==> r.target in offsetToBlock
    ensures forall e :: e in edges <==> exists r :: r in regions && ExceptionEdge(blocks, r, offsetToBlock, e)
  {
    edges := [];
    for n := 0 to |regions|
      invariant forall e :: e in edges <==> exists r :: r in regions[..n] && ExceptionEdge(blocks, r, offsetToBlock, e)
    {
      var region := regions[n];
      var handler := offsetToBlock[region.target];
      assert regions[..n + 1] == regions[..n] + [region];
      ghost var before := edges;
      for k := 0 to |blocks|
        invariant forall e :: e in edges <==>
                    e in before || (e.source < k && ExceptionEdge(blocks, region, offsetToBlock, e))
      {
        var block := blocks[k];
        if block.start >= region.start && block.start < region.end {
          edges := edges + [Edge(block.index, handler, Exception)];
        }
      }
    }
    assert regions[..|regions|] == regions;
  }

  // ---------- reachability ----------

  ghost function BlockFlow(blocks: seq<BasicBlock>, edges: seq<Edge>): Arcs {
    Graph(Below(|blocks|), edges, 0).Out()
  }

  /** The targets of the edges from a reached block are its successors, and reached. */
  lemma SuccessorsReached(blocks: seq<BasicBlock>, edges: seq<Edge>, entry: int, index: int)
    requires 0 <= entry < |blocks| && 0 <= index < |blocks|
    requires forall e :: e in edges ==> 0 <= e.source < |blocks| && 0 <= e.target < |blocks|
    requires Reaches(BlockFlow(blocks, edges), entry, index)
    ensures forall m :: m in Targets(EdgesFrom(edges, index)) <==> Step(BlockFlow(blocks, edges), index, m)
    ensures forall m :: m in Targets(EdgesFrom(edges, index)) ==>
              m in Below(|blocks|) && Reaches(BlockFlow(blocks, edges), entry, m)
  {
    var arcs := BlockFlow(blocks, edges);
    var all := Below(|blocks|);
    forall m | m in Targets(EdgesFrom(edges, index))
      ensures m in all && Step(arcs, index, m) && Reaches(arcs, entry, m)
    {
      var e :| e in EdgesFrom(edges, index) && e.target == m;
      assert m in Graph(all, edges, 0).Successors(index);
      ConnectsStep(arcs, index, m, {});
      ConnectsTrans(arcs, entry, index, m, {});
    }
    forall m | Step(arcs, index, m) ensures m in Targets(EdgesFrom(edges, index)) {
      var e :| e in edges && e.source == index && e.target == m;
      assert e in EdgesFrom(edges, index);
    }
  }

  /** A queue walk that sets the flag of exactly the blocks reachable from the entry. */
  method MarkReachable(blocks: seq<BasicBlock>, edges: seq<Edge>, entry: int)
    requires Numbered(blocks) && 0 <= entry < |blocks|
    requires forall e :: e in edges ==> 0 <= e.source < |blocks| && 0 <= e.target < |blocks|
    modifies set b | b in blocks
    ensures forall k :: 0 <= k < |blocks| ==>
              (blocks[k].reachable <==> old(blocks[k].reachable) || Reaches(BlockFlow(blocks, edges), entry, k))
  {
    hide BlockFlow, Targets, EdgesFrom, Step;
    ghost var arcs := BlockFlow(blocks, edges);
    ghost var all := Below(|blocks|);
    var pending := [entry];
    var seen: set<int> := {};
    ConnectsSelf(arcs, entry, {});
    while pending != []
      invariant seen <= all
      invariant forall k :: k in pending ==> k in all && Reaches(arcs, entry, k)
      invariant forall k :: k in seen ==> Reaches(arcs, entry, k)
      invariant entry in seen || entry in pending
      invariant forall k, m :: k in seen && Step(arcs, k, m) ==> m in seen || m in pending
      invariant forall k :: 0 <= k < |blocks| ==> (blocks[k].reachable <==> old(blocks[k].reachable) || k in seen)
      decreases all - seen, |pending|
    {
      var index := pending[0];
      assert index in pending && index in all;
      assert pending == [index] + pending[1..];
      pending := pending[1..];
      if index in seen {
        continue;
      }
      seen := seen + {index};
      blocks[index].reachable := true;
      var successors := Targets(EdgesFrom(edges, index));
      SuccessorsReached(blocks, edges, entry, index);
      pending := pending + successors;
    }
    SeenAll(arcs, seen, entry);
  }

  // ---------- building the graph ----------

  ghost function LeaderCuts(code: seq<Instruction>, regions: seq<Region>): seq<int>
    requires code != []
  {
    Sorted(set i | 0 <= i < |code| && Leader(code, regions, code[i].offset))
  }

  /** Exactly the blocks reachable from the first one are marked. */
  ghost predicate Flagged(blocks: seq<BasicBlock>, edges: seq<Edge>)
    reads blocks
  {
    forall k :: 0 <= k < |blocks| ==> (blocks[k].reachable <==> Reaches(BlockFlow(blocks, edges), 0, k))
  }

  /** The graph of a nonempty stream: blocks cut exactly at the leaders, exactly the block edges, exact flags. */
  ghost predicate Built(code: seq<Instruction>, regions: seq<Region>, cfg: ControlFlowGraph)
    requires code != []
    reads cfg.blocks
  {
    && Tiles(code, LeaderCuts(code, regions), cfg.blocks)
    && Locates(code, LeaderCuts(code, regions), cfg.offsetToBlock)
    && StrictlySorted(cfg.edges)
    && (forall e :: e in cfg.edges <==> BlockEdge(cfg.blocks, regions, cfg.offsetToBlock, e))
    && cfg.entry == 0
    && Flagged(cfg.blocks, cfg.edges)
  }

  /** A built graph is well formed. */
  lemma BuiltWellFormed(code: seq<Instruction>, regions: seq<Region>, cfg: ControlFlowGraph)
    requires code != [] && Built(code, regions, cfg)
    ensures cfg.WellFormed()
  {
    var cuts := LeaderCuts(code, regions);
    forall k | 0 <= k < |cfg.blocks| ensures cfg.blocks[k].index == k && cfg.blocks[k].instructions != [] {
      TiledLast(code, cuts, cfg.blocks, k);
    }
    forall o | o in cfg.offsetToBlock ensures 0 <= cfg.offsetToBlock[o] < |cfg.blocks| {
      assert o in Offsets(code);
    }
    forall e | e in cfg.edges ensures 0 <= e.source < |cfg.blocks| && 0 <= e.target < |cfg.blocks| {
      assert BlockEdge(cfg.blocks, regions, cfg.offsetToBlock, e);
    }
  }

  lemma IsBuilt(code: seq<Instruction>, regions: seq<Region>, cfg: ControlFlowGraph)
    requires code != []
    requires Tiles(code, LeaderCuts(code, regions), cfg.blocks)
    requires Locates(code, LeaderCuts(code, regions), cfg.offsetToBlock)
    requires StrictlySorted(cfg.edges) && cfg.entry == 0
    requires forall e :: e in cfg.edges <==> BlockEdge(cfg.blocks, regions, cfg.offsetToBlock, e)
    requires Flagged(cfg.blocks, cfg.edges)
    ensures Built(code, regions, cfg)
  {
  }

  ghost predicate Targeted(code: seq<Instruction>) {
    forall i :: 0 <= i < |code| && UnconditionalJump(code[i].kind) ==> InstructionTarget(code[i]).Some?
  }

  /** Each unconditional jump that ends a block has a target. */
  ghost predicate EndsTargeted(code: seq<Instruction>, cuts: seq<int>) {
    forall k: nat :: k < |cuts| && 0 < Stop(code, cuts, k) <= |code| ==>
      var last := code[Stop(code, cuts, k) - 1];
      UnconditionalJump(last.kind) ==> InstructionTarget(last).Some?
  }

  lemma TiledLast(code: seq<Instruction>, cuts: seq<int>, blocks: seq<BasicBlock>, k: nat)
    requires Tiles(code, cuts, blocks) && k < |blocks|
    ensures blocks[k].index == k && blocks[k].start == code[cuts[k]].offset && blocks[k].instructions != []
    ensures 0 < Stop(code, cuts, k) <= |code| && LastOf(blocks[k]) == code[Stop(code, cuts, k) - 1]
  {
    assert IsBlock(code, cuts, k, blocks[k]);
  }

  lemma TiledEnds(code: seq<Instruction>, cuts: seq<int>, blocks: seq<BasicBlock>)
    requires Tiles(code, cuts, blocks) && Numbered(blocks)
    ensures LastsTargeted(blocks) <==> EndsTargeted(code, cuts)
  {
    assert |blocks| == |cuts|;
    hide Tiles;
    forall k: nat | k < |cuts|
      ensures 0 < Stop(code, cuts, k) <= |code| && LastOf(blocks[k]) == code[Stop(code, cuts, k) - 1]
    {
      TiledLast(code, cuts, blocks, k);
    }
  }

  lemma UntargetedInCode(code: seq<Instruction>, regions: seq<Region>, cuts: seq<int>, blocks: seq<BasicBlock>,
                         e: CfgError)
    requires Tiles(code, cuts, blocks) && exists k :: 0 <= k < |blocks| && UntargetedLast(blocks[k], e)
    ensures Justified(code, regions, e)
  {
    hide Tiles;
    var k :| 0 <= k < |blocks| && UntargetedLast(blocks[k], e);
    TiledLast(code, cuts, blocks, k);
  }

  lemma TiledLasts(code: seq<Instruction>, regions: seq<Region>, cuts: seq<int>, blocks: seq<BasicBlock>,
                   offsetToBlock: map<int, int>)
    requires Tiles(code, cuts, blocks) && Locates(code, cuts, offsetToBlock) && Resolvable(code, regions)
    ensures Numbered(blocks) && LastsResolved(blocks, offsetToBlock)
    ensures LastsTargeted(blocks) <==> EndsTargeted(code, cuts)
    ensures Targeted(code) ==> EndsTargeted(code, cuts)
    ensures forall r :: r in regions ==> r.target in offsetToBlock
  {
    hide Tiles, Leader;
    forall k | 0 <= k < |blocks| ensures blocks[k].index == k && blocks[k].instructions != [] {
      TiledLast(code, cuts, blocks, k);
    }
    forall k | 0 <= k < |blocks| ensures exists i :: 0 <= i < |code| && LastOf(blocks[k]) == code[i] {
      TiledLast(code, cuts, blocks, k);
    }
    TiledEnds(code, cuts, blocks);
    forall k | 0 <= k < |blocks| && InstructionTarget(LastOf(blocks[k])).Some?
      ensures InstructionTarget(LastOf(blocks[k])).value in offsetToBlock
    {
      var i :| 0 <= i < |code| && LastOf(blocks[k]) == code[i];
      assert Resolved(code, code[i]);
    }
  }

  /** Normal and exception edges together are the block edges, and stay among the blocks. */
  lemma AllEdges(code: seq<Instruction>, regions: seq<Region>, cuts: seq<int>, blocks: seq<BasicBlock>,
                 offsetToBlock: map<int, int>, normal: seq<Edge>, exceptional: seq<Edge>, all: seq<Edge>)
    requires Tiles(code, cuts, blocks) && Locates(code, cuts, offsetToBlock) && Numbered(blocks)
    requires forall e :: e in normal <==> 0 <= e.source < |blocks| && NormalEdge(blocks, offsetToBlock, e.source, e)
    requires forall e :: e in exceptional <==> exists r :: r in regions && ExceptionEdge(blocks, r, offsetToBlock, e)
    requires forall e :: e in all <==> e in normal || e in exceptional
    ensures forall e :: e in all <==> BlockEdge(blocks, regions, offsetToBlock, e)
    ensures forall e :: e in all ==> 0 <= e.source < |blocks| && 0 <= e.target < |blocks|
    ensures 0 < |blocks|
  {
    forall o | o in offsetToBlock ensures 0 <= offsetToBlock[o] < |blocks| {
      assert o in Offsets(code);
    }
  }

  method BuildCfg(code: seq<Instruction>, regions: seq<Region>) returns (r: Result)
    requires Increasing(code)
    ensures code == [] ==> r == Ok(ControlFlowGraph([], [], -1, map[]))
    ensures code != [] ==> (r.Ok? <==> Resolvable(code, regions) && EndsTargeted(code, LeaderCuts(code, regions)))
    ensures code != [] && r.Ok? ==> Built(code, regions, r.cfg)
    ensures r.Err? ==> Justified(code, regions, r.error)
    ensures code != [] && Resolvable(code, regions) && Targeted(code) ==> r.Ok?
  {
    hide Tiles, Locates, Leader, LeaderCuts, Cuts, LastsResolved, LastsTargeted, Numbered, NormalEdge, ExceptionEdge;
    hide Built, Justified, UntargetedLast, BlockEdge, BlockFlow, Resolvable, Offsets, Targeted, EndsTargeted;
    hide Increasing, StrictlySorted;
    if code == [] {
      return Ok(ControlFlowGraph([], [], -1, map[]));
    }
    var leaders, error := CollectLeaders(code, regions);
    if error != None {
      return Err(error.value);
    }
    var cuts := FindCuts(code, leaders);
    CutsAtLeaders(code, regions, leaders);
    var blocks, offsetToBlock := SplitBlocks(code, cuts);
    TiledLasts(code, regions, cuts, blocks, offsetToBlock);
    var edges;
    edges, error := NormalEdges(blocks, offsetToBlock);
    if error != None {
      UntargetedInCode(code, regions, cuts, blocks, error.value);
      return Err(error.value);
    }
    var exceptional := ExceptionEdges(blocks, regions, offsetToBlock);
    var all := SortedEdges(edges + exceptional);
    AllEdges(code, regions, cuts, blocks, offsetToBlock, edges, exceptional, all);
    assert forall b :: b in blocks ==> fresh(b);
    MarkReachable(blocks, all, 0);
    IsBuilt(code, regions, ControlFlowGraph(blocks, all, 0, offsetToBlock));
    r := Ok(ControlFlowGraph(blocks, all, 0, offsetToBlock));
  }

  lemma CutsAtLeaders(code: seq<Instruction>, regions: seq<Region>, leaders: set<int>)
    requires code != []
    requires forall o :: o in leaders <==> o in Offsets(code) && Leader(code, regions, o)
    ensures Sorted(set i | 0 <= i < |code| && code[i].offset in leaders) == LeaderCuts(code, regions)
  {
    var p := set i | 0 <= i < |code| && code[i].offset in leaders;
    var q := set i | 0 <= i < |code| && Leader(code, regions, code[i].offset);
    forall i ensures i in p <==> i in q {
      if 0 <= i < |code| {
        assert code[i].offset in Offsets(code);
      }
    }
    Extensional(p, q);
  }

  // ---------- the block graph refines instruction flow ----------

  /** A leader is the first instruction of its block, and only leaders are. */
  lemma LeaderStarts(code: seq<Instruction>, regions: seq<Region>, i: int)
    requires code != [] && Cuts(code, LeaderCuts(code, regions)) && 0 <= i < |code|
    ensures Leader(code, regions, code[i].offset) <==>
            LeaderCuts(code, regions)[BlockOf(code, LeaderCuts(code, regions), i)] == i
  {
    var cuts := LeaderCuts(code, regions);
    assert i in cuts <==> Leader(code, regions, code[i].offset);
    if i in cuts {
      var k :| 0 <= k < |cuts| && cuts[k] == i;
      BlockUnique(code, cuts, i, k, BlockOf(code, cuts, i));
    }
  }

  lemma TransferMarksNext(code: seq<Instruction>, regions: seq<Region>, i: int)
    requires 0 <= i < |code| - 1 && (InstructionTarget(code[i]) != None || Terminator(code[i].kind))
    ensures Leader(code, regions, code[i + 1].offset)
  {
    assert Marks(code, i, code[i + 1].offset);
  }

  /** Only the last instruction of a block can jump or terminate. */
  lemma OnlyLastTransfers(code: seq<Instruction>, regions: seq<Region>, i: int)
    requires code != [] && Cuts(code, LeaderCuts(code, regions)) && 0 <= i < |code| - 1
    requires BlockOf(code, LeaderCuts(code, regions), i) == BlockOf(code, LeaderCuts(code, regions), i + 1)
    ensures InstructionTarget(code[i]) == None && !Terminator(code[i].kind)
  {
    LeaderStarts(code, regions, i + 1);
    if InstructionTarget(code[i]) != None || Terminator(code[i].kind) {
      TransferMarksNext(code, regions, i);
    }
  }

  lemma FlowReaches(code: seq<Instruction>, regions: seq<Region>, i: int, j: int)
    requires 0 <= i < |code| && 0 <= j < |code| && Flows(code, regions, i, j)
    ensures Reaches(InstructionFlow(code, regions), i, j)
  {
    ConnectsStep(InstructionFlow(code, regions), i, j, {});
  }

  lemma EdgeReaches(blocks: seq<BasicBlock>, edges: seq<Edge>, e: Edge)
    requires e in edges && 0 <= e.source < |blocks| && 0 <= e.target < |blocks|
    ensures Reaches(BlockFlow(blocks, edges), e.source, e.target)
  {
    assert e.target in Graph(Below(|blocks|), edges, 0).Successors(e.source);
    ConnectsStep(BlockFlow(blocks, edges), e.source, e.target, {});
  }

  lemma HasTarget(code: seq<Instruction>, i: int)
    requires Targeted(code) && 0 <= i < |code|
    ensures UnconditionalJump(code[i].kind) ==> InstructionTarget(code[i]).Some?
  {
  }

  /** Control runs straight through a block. */
  lemma {:induction false} BlockRuns(code: seq<Instruction>, regions: seq<Region>, k: int, i: int)
    requires code != [] && Cuts(code, LeaderCuts(code, regions)) && Targeted(code)
    requires InBlock(code, LeaderCuts(code, regions), k, i)
    ensures Reaches(InstructionFlow(code, regions), LeaderCuts(code, regions)[k], i)
    decreases i
  {
    hide InstructionFlow, LeaderCuts, Targeted;
    var cuts, flow := LeaderCuts(code, regions), InstructionFlow(code, regions);
    if i == cuts[k] {
      ConnectsSelf(flow, i, {});
    } else {
      BlockRuns(code, regions, k, i - 1);
      BlockUnique(code, cuts, i, k, BlockOf(code, cuts, i));
      BlockUnique(code, cuts, i - 1, k, BlockOf(code, cuts, i - 1));
      OnlyLastTransfers(code, regions, i - 1);
      HasTarget(code, i - 1);
      FlowReaches(code, regions, i - 1, i);
      ConnectsTrans(flow, cuts[k], i - 1, i, {});
    }
  }

  /** A located leader offset names the block that begins there. */
  lemma LocatedStart(code: seq<Instruction>, regions: seq<Region>, offsetToBlock: map<int, int>, o: int)
    returns (j: int)
    requires code != [] && Locates(code, LeaderCuts(code, regions), offsetToBlock)
    requires o in Offsets(code) && Leader(code, regions, o)
    ensures 0 <= j < |code| && code[j].offset == o
    ensures offsetToBlock[o] == BlockOf(code, LeaderCuts(code, regions), j)
    ensures LeaderCuts(code, regions)[offsetToBlock[o]] == j
  {
    j :| 0 <= j < |code| && code[j].offset == o;
    LeaderStarts(code, regions, j);
  }

  /** Every block edge is matched by instruction flow between the block starts. */
  lemma EdgeFlows(code: seq<Instruction>, regions: seq<Region>, cfg: ControlFlowGraph, e: Edge)
    requires code != [] && Built(code, regions, cfg) && Resolvable(code, regions) && Targeted(code)
    requires e in cfg.edges
    ensures 0 <= e.source < |cfg.blocks| && 0 <= e.target < |cfg.blocks|
    ensures Reaches(InstructionFlow(code, regions), LeaderCuts(code, regions)[e.source],
                    LeaderCuts(code, regions)[e.target])
  {
    hide Tiles, Locates, NormalEdge, ExceptionEdge, LeaderCuts, InstructionFlow, Targeted, Resolvable;
    var cuts := LeaderCuts(code, regions);
    assert BlockEdge(cfg.blocks, regions, cfg.offsetToBlock, e);
    if exists r :: r in regions && ExceptionEdge(cfg.blocks, r, cfg.offsetToBlock, e) {
      var r :| r in regions && ExceptionEdge(cfg.blocks, r, cfg.offsetToBlock, e);
      ExceptionEdgeFlows(code, regions, cfg.blocks, cfg.offsetToBlock, r, e);
    } else {
      TransferEdgeFlows(code, regions, cfg.blocks, cfg.offsetToBlock, e.source, e);
    }
  }

  lemma ExceptionEdgeFlows(code: seq<Instruction>, regions: seq<Region>, blocks: seq<BasicBlock>,
                           offsetToBlock: map<int, int>, r: Region, e: Edge)
    requires code != [] && Tiles(code, LeaderCuts(code, regions), blocks)
    requires Locates(code, LeaderCuts(code, regions), offsetToBlock)
    requires r in regions && ExceptionEdge(blocks, r, offsetToBlock, e)
    ensures 0 <= e.source < |blocks| && 0 <= e.target < |blocks|
    ensures Reaches(InstructionFlow(code, regions), LeaderCuts(code, regions)[e.source],
                    LeaderCuts(code, regions)[e.target])
  {
    TiledLast(code, LeaderCuts(code, regions), blocks, e.source);
    assert Bounds(regions, r.target);
    var j := LocatedStart(code, regions, offsetToBlock, r.target);
    FlowReaches(code, regions, LeaderCuts(code, regions)[e.source], j);
  }

  /** A normal edge leads from the last instruction of its block to the start of the next one. */
  lemma NormalEdgeStep(code: seq<Instruction>, regions: seq<Region>, blocks: seq<BasicBlock>,
                       offsetToBlock: map<int, int>, k: int, e: Edge) returns (j: int)
    requires code != [] && Tiles(code, LeaderCuts(code, regions), blocks)
    requires Locates(code, LeaderCuts(code, regions), offsetToBlock)
    requires 0 <= k < |blocks| && blocks[k].instructions != [] && NormalEdge(blocks, offsetToBlock, k, e)
    ensures 0 <= e.target < |blocks| && j == LeaderCuts(code, regions)[e.target]
    ensures 0 <= j < |code| && 0 < Stop(code, LeaderCuts(code, regions), k) <= |code|
    ensures Flows(code, regions, Stop(code, LeaderCuts(code, regions), k) - 1, j)
  {
    hide LeaderCuts;
    var cuts := LeaderCuts(code, regions);
    TiledLast(code, cuts, blocks, k);
    var last := Stop(code, cuts, k) - 1;
    var target := InstructionTarget(code[last]);
    if target.Some? && target.value in offsetToBlock && e.target == offsetToBlock[target.value] {
      assert Marks(code, last, target.value);
      j := LocatedStart(code, regions, offsetToBlock, target.value);
    } else {
      j := last + 1;
    }
  }

  lemma TransferEdgeFlows(code: seq<Instruction>, regions: seq<Region>, blocks: seq<BasicBlock>,
                          offsetToBlock: map<int, int>, k: int, e: Edge)
    requires code != [] && Tiles(code, LeaderCuts(code, regions), blocks) && Targeted(code)
    requires Locates(code, LeaderCuts(code, regions), offsetToBlock)
    requires 0 <= k < |blocks| && blocks[k].instructions != [] && NormalEdge(blocks, offsetToBlock, k, e)
    ensures 0 <= e.target < |blocks|
    ensures Reaches(InstructionFlow(code, regions), LeaderCuts(code, regions)[k], LeaderCuts(code, regions)[e.target])
  {
    hide InstructionFlow, Targeted, LeaderCuts, Flows, NormalEdge, Locates;
    var cuts, flow := LeaderCuts(code, regions), InstructionFlow(code, regions);
    var last := Stop(code, cuts, k) - 1;
    assert IsBlock(code, cuts, k, blocks[k]);
    BlockRuns(code, regions, k, last);
    var j := NormalEdgeStep(code, regions, blocks, offsetToBlock, k, e);
    FlowReaches(code, regions, last, j);
    ConnectsTrans(flow, cuts[k], last, j, {});
  }

  /** Every step of instruction flow stays in its block or follows a block edge. */
  lemma FlowEdges(code: seq<Instruction>, regions: seq<Region>, cfg: ControlFlowGraph, i: int, j: int)
    requires code != [] && Built(code, regions, cfg) && Resolvable(code, regions) && Increasing(code)
    requires 0 <= i < |code| && 0 <= j < |code| && Flows(code, regions, i, j)
    ensures var cuts := LeaderCuts(code, regions);
            Reaches(BlockFlow(cfg.blocks, cfg.edges), BlockOf(code, cuts, i), BlockOf(code, cuts, j))
  {
    hide Locates, NormalEdge, LeaderCuts, Resolvable, Increasing, BlockFlow, IsBlock;
    var cuts, flow := LeaderCuts(code, regions), BlockFlow(cfg.blocks, cfg.edges);
    var k, m := BlockOf(code, cuts, i), BlockOf(code, cuts, j);
    if k == m {
      ConnectsSelf(flow, k, {});
      return;
    }
    var e: Edge;
    if exists r :: r in regions && r.start <= code[i].offset < r.end && r.target == code[j].offset {
      var r :| r in regions && r.start <= code[i].offset < r.end && r.target == code[j].offset;
      e := RaiseEdge(code, regions, cfg, r, i, j);
    } else {
      e := TransferEdge(code, regions, cfg, i, j);
    }
    EdgeReaches(cfg.blocks, cfg.edges, e);
  }

  lemma LocatesAt(code: seq<Instruction>, cuts: seq<int>, offsetToBlock: map<int, int>, j: int)
    requires Locates(code, cuts, offsetToBlock) && 0 <= j < |code|
    ensures code[j].offset in offsetToBlock && offsetToBlock[code[j].offset] == BlockOf(code, cuts, j)
  {
    assert code[j].offset in Offsets(code);
  }

  /** A raise inside a region is an exception edge of the block. */
  lemma RaiseEdge(code: seq<Instruction>, regions: seq<Region>, cfg: ControlFlowGraph, r: Region, i: int, j: int)
    returns (e: Edge)
    requires code != [] && Built(code, regions, cfg) && Resolvable(code, regions) && Increasing(code)
    requires 0 <= i < |code| && 0 <= j < |code|
    requires r in regions && r.start <= code[i].offset < r.end && r.target == code[j].offset
    ensures e in cfg.edges
    ensures e.source == BlockOf(code, LeaderCuts(code, regions), i) &&
              e.target == BlockOf(code, LeaderCuts(code, regions), j)
  {
    hide Locates, NormalEdge, LeaderCuts, Resolvable, Increasing;
    var cuts := LeaderCuts(code, regions);
    var k := BlockOf(code, cuts, i);
    TiledLast(code, cuts, cfg.blocks, k);
    LocatesAt(code, cuts, cfg.offsetToBlock, j);
    RegionCoversStart(code, regions, r, i);
    e := Edge(k, BlockOf(code, cuts, j), Exception);
    assert ExceptionEdge(cfg.blocks, r, cfg.offsetToBlock, e);
    assert BlockEdge(cfg.blocks, regions, cfg.offsetToBlock, e);
  }

  /** A region that covers an instruction covers the start of its block. */
  lemma RegionCoversStart(code: seq<Instruction>, regions: seq<Region>, r: Region, i: int)
    requires code != [] && Cuts(code, LeaderCuts(code, regions)) && Resolvable(code, regions) && Increasing(code)
    requires r in regions && 0 <= i < |code| && r.start <= code[i].offset < r.end
    ensures r.start <= code[LeaderCuts(code, regions)[BlockOf(code, LeaderCuts(code, regions), i)]].offset < r.end
  {
    hide LeaderCuts;
    var cuts := LeaderCuts(code, regions);
    var k := BlockOf(code, cuts, i);
    assert r.start in Offsets(code);
    var s :| 0 <= s < |code| && code[s].offset == r.start;
    assert Bounds(regions, r.start);
    LeaderStarts(code, regions, s);
    if cuts[k] < s {
      assert InBlock(code, cuts, k, s);
      BlockUnique(code, cuts, s, k, BlockOf(code, cuts, s));
      assert false;
    }
  }

  /** A transfer out of a block leaves from its last instruction. */
  lemma LeavesAtLast(code: seq<Instruction>, regions: seq<Region>, i: int, j: int)
    requires code != [] && Cuts(code, LeaderCuts(code, regions)) && 0 <= i < |code| && 0 <= j < |code|
    requires j == i + 1 || InstructionTarget(code[i]) != None
    requires BlockOf(code, LeaderCuts(code, regions), i) != BlockOf(code, LeaderCuts(code, regions), j)
    ensures i + 1 == Stop(code, LeaderCuts(code, regions), BlockOf(code, LeaderCuts(code, regions), i))
  {
    hide LeaderCuts;
    var cuts := LeaderCuts(code, regions);
    var k := BlockOf(code, cuts, i);
    if i + 1 < Stop(code, cuts, k) {
      BlockUnique(code, cuts, i + 1, k, BlockOf(code, cuts, i + 1));
      OnlyLastTransfers(code, regions, i);
    }
  }

  /** A normal step between blocks is one of the edges of the first block's last instruction. */
  lemma TransferEdge(code: seq<Instruction>, regions: seq<Region>, cfg: ControlFlowGraph, i: int, j: int)
    returns (e: Edge)
    requires code != [] && Built(code, regions, cfg)
    requires 0 <= i < |code| && 0 <= j < |code| && !Terminator(code[i].kind)
    requires (j == i + 1 && !UnconditionalJump(code[i].kind)) || InstructionTarget(code[i]) == Some(code[j].offset)
    requires BlockOf(code, LeaderCuts(code, regions), i) != BlockOf(code, LeaderCuts(code, regions), j)
    ensures e in cfg.edges
    ensures e.source == BlockOf(code, LeaderCuts(code, regions), i) &&
              e.target == BlockOf(code, LeaderCuts(code, regions), j)
  {
    hide Locates, LeaderCuts, ExceptionEdge;
    var cuts := LeaderCuts(code, regions);
    var k, m := BlockOf(code, cuts, i), BlockOf(code, cuts, j);
    TiledLast(code, cuts, cfg.blocks, k);
    LeavesAtLast(code, regions, i, j);
    LocatesAt(code, cuts, cfg.offsetToBlock, j);
    var last := LastOf(cfg.blocks[k]);
    if InstructionTarget(last) == Some(code[j].offset) {
      e := Edge(k, m, if UnconditionalJump(last.kind) then Jump else EdgeKinds(last.kind).0);
    } else {
      BlockUnique(code, cuts, j, k + 1, m);
      e := Edge(k, m, if InstructionTarget(last).Some? then EdgeKinds(last.kind).1 else Fallthrough);
    }
    assert NormalEdge(cfg.blocks, cfg.offsetToBlock, k, e);
    assert BlockEdge(cfg.blocks, regions, cfg.offsetToBlock, e);
  }

  lemma ReachableBlock(code: seq<Instruction>, regions: seq<Region>, cfg: ControlFlowGraph, i: int)
    requires code != [] && Built(code, regions, cfg) && Resolvable(code, regions) && Increasing(code)
    requires 0 <= i < |code| && Reaches(InstructionFlow(code, regions), 0, i)
    ensures Reaches(BlockFlow(cfg.blocks, cfg.edges), 0, BlockOf(code, LeaderCuts(code, regions), i))
  {
    hide IsBlock, Locates, BlockEdge, LeaderCuts, Resolvable, Increasing, BlockFlow, Flows;
    var cuts := LeaderCuts(code, regions);
    var flow, blockFlow := InstructionFlow(code, regions), BlockFlow(cfg.blocks, cfg.edges);
    var up := (n: int) => if 0 <= n < |code| then BlockOf(code, cuts, n) else n;
    BlockUnique(code, cuts, 0, 0, BlockOf(code, cuts, 0));
    forall a, b | Step(flow, a, b) ensures Reaches(blockFlow, up(a), up(b)) {
      FlowEdges(code, regions, cfg, a, b);
    }
    Simulate(flow, blockFlow, up, 0, i);
  }

  lemma ReachableInstruction(code: seq<Instruction>, regions: seq<Region>, cfg: ControlFlowGraph, i: int)
    requires code != [] && Built(code, regions, cfg) && Resolvable(code, regions) && Targeted(code)
    requires 0 <= i < |code|
    requires Reaches(BlockFlow(cfg.blocks, cfg.edges), 0, BlockOf(code, LeaderCuts(code, regions), i))
    ensures Reaches(InstructionFlow(code, regions), 0, i)
  {
    hide IsBlock, Locates, BlockEdge, LeaderCuts, Resolvable, Targeted, InstructionFlow;
    var cuts := LeaderCuts(code, regions);
    var flow, blockFlow := InstructionFlow(code, regions), BlockFlow(cfg.blocks, cfg.edges);
    var down := (n: int) => if 0 <= n < |cuts| then cuts[n] else n;
    var k := BlockOf(code, cuts, i);
    forall a, b | Step(blockFlow, a, b) ensures Reaches(flow, down(a), down(b)) {
      var e :| e in cfg.edges && e.source == a && e.target == b;
      EdgeFlows(code, regions, cfg, e);
    }
    Simulate(blockFlow, flow, down, 0, k);
    BlockRuns(code, regions, k, i);
    ConnectsTrans(flow, 0, cuts[k], i, {});
  }

  /** An instruction is reachable by fall-through, jump and exception steps iff its block is marked. */
  lemma ReachabilityRefines(code: seq<Instruction>, regions: seq<Region>, cfg: ControlFlowGraph, i: int)
    requires code != [] && Built(code, regions, cfg) && Resolvable(code, regions)
    requires Increasing(code) && Targeted(code) && 0 <= i < |code|
    ensures BlockOf(code, LeaderCuts(code, regions), i) < |cfg.blocks|
    ensures Reaches(InstructionFlow(code, regions), 0, i) <==>
            cfg.blocks[BlockOf(code, LeaderCuts(code, regions), i)].reachable
  {
    hide Locates, BlockEdge, LeaderCuts, Resolvable, Increasing, BlockFlow, InstructionFlow;
    if Reaches(InstructionFlow(code, regions), 0, i) {
      ReachableBlock(code, regions, cfg, i);
    }
    if Reaches(BlockFlow(cfg.blocks, cfg.edges), 0, BlockOf(code, LeaderCuts(code, regions), i)) {
      ReachableInstruction(code, regions, cfg, i);
    }
  }

  /** A block lies wholly inside or outside a region. */
  ghost predicate Aligned(code: seq<Instruction>, cuts: seq<int>, r: Region)
    requires Cuts(code, cuts)
  {
    forall i, j :: 0 <= i < |code| && 0 <= j < |code| && BlockOf(code, cuts, i) == BlockOf(code, cuts, j)
      ==> (r.start <= code[i].offset < r.end <==> r.start <= code[j].offset < r.end)
  }

  /** n is the first instruction at or after the end of r. */
  ghost predicate FirstAfter(code: seq<Instruction>, r: Region, n: int) {
    && 0 <= n < |code| && code[n].offset >= r.end
    && forall i :: 0 <= i < n ==> code[i].offset < r.end
  }

  /**
   Blocks never straddle a nonempty region exactly when the first instruction at or after its end, if
   there is one, begins a block; a region end that is an instruction offset always does.
   */
  lemma RegionsAlign(code: seq<Instruction>, regions: seq<Region>, r: Region)
    requires code != [] && Cuts(code, LeaderCuts(code, regions)) && Resolvable(code, regions) && Increasing(code)
    requires r in regions && r.start < r.end
    ensures Aligned(code, LeaderCuts(code, regions), r) <==>
            forall n :: FirstAfter(code, r, n) ==> Leader(code, regions, code[n].offset)
    ensures r.end in Offsets(code) ==> Aligned(code, LeaderCuts(code, regions), r)
  {
    hide LeaderCuts, Leader, Cuts, Aligned, BlockOf, Increasing, Resolvable;
    var s := RegionStart(code, regions, r);
    if forall n :: FirstAfter(code, r, n) ==> Leader(code, regions, code[n].offset) {
      forall i, j | 0 <= i < j < |code|
                    && BlockOf(code, LeaderCuts(code, regions), i) == BlockOf(code, LeaderCuts(code, regions), j)
        ensures r.start <= code[i].offset < r.end <==> r.start <= code[j].offset < r.end
      {
        StaysTogether(code, regions, r, s, i, j);
      }
      AlignedEitherWay(code, LeaderCuts(code, regions), r);
    } else {
      var n :| FirstAfter(code, r, n) && !Leader(code, regions, code[n].offset);
      Straddles(code, regions, r, s, n);
    }
    if r.end in Offsets(code) {
      EndIsLeader(code, regions, r);
    }
  }

  /** The leaders of any code cut it into blocks. */
  lemma LeadersCut(code: seq<Instruction>, regions: seq<Region>)
    requires code != []
    ensures Cuts(code, LeaderCuts(code, regions))
  {
    var cuts := LeaderCuts(code, regions);
    assert 0 in cuts;
    forall k | 0 <= k < |cuts| ensures 0 <= cuts[k] < |code| {
      assert cuts[k] in cuts;
    }
  }

  /** A region whose end falls among the caches of the instruction at offset 2. */
  lemma StraddlingExists() returns (code: seq<Instruction>, r: Region)
    ensures code != [] && Increasing(code) && Resolvable(code, [r]) && Targeted(code)
    ensures ValidRegion(r, 16) && r.start < r.end && Cuts(code, LeaderCuts(code, [r]))
    ensures !Aligned(code, LeaderCuts(code, [r]), r)
  {
    hide LeaderCuts, Cuts, Aligned, MarkedBefore;
    var plain := Other("plain");
    code := [Instruction(0, plain, None, NoneAttr), Instruction(2, plain, None, NoneAttr),
             Instruction(12, plain, None, NoneAttr), Instruction(14, plain, None, NoneAttr)];
    r := Region(0, 4, 14, 0, false);
    assert code[0].offset in Offsets(code) && code[3].offset in Offsets(code);
    LeadersCut(code, [r]);
    RegionsAlign(code, [r], r);
    assert FirstAfter(code, r, 2);
    NothingMarked(code, 12);
  }

  lemma NothingMarked(code: seq<Instruction>, o: int)
    requires forall j :: 0 <= j < |code| ==> InstructionTarget(code[j]) == None && !Terminator(code[j].kind)
    ensures !MarkedBefore(code, |code|, o)
  {
  }

  lemma AlignedEitherWay(code: seq<Instruction>, cuts: seq<int>, r: Region)
    requires Cuts(code, cuts)
    requires forall i, j :: 0 <= i < j < |code| && BlockOf(code, cuts, i) == BlockOf(code, cuts, j)
               ==> (r.start <= code[i].offset < r.end <==> r.start <= code[j].offset < r.end)
    ensures Aligned(code, cuts, r)
  {
    hide Cuts, BlockOf;
  }

  lemma RegionStart(code: seq<Instruction>, regions: seq<Region>, r: Region) returns (s: int)
    requires code != [] && Resolvable(code, regions) && r in regions
    ensures 0 <= s < |code| && code[s].offset == r.start && Leader(code, regions, r.start)
  {
    assert r.start in Offsets(code);
    s :| 0 <= s < |code| && code[s].offset == r.start;
    assert Bounds(regions, r.start);
  }

  lemma EndIsLeader(code: seq<Instruction>, regions: seq<Region>, r: Region)
    requires code != [] && Increasing(code) && r in regions && r.end in Offsets(code)
    ensures forall m :: FirstAfter(code, r, m) ==> Leader(code, regions, code[m].offset)
  {
    var n :| 0 <= n < |code| && code[n].offset == r.end;
    assert Bounds(regions, r.end);
    forall m | FirstAfter(code, r, m) ensures m == n {
    }
  }

  lemma StaysTogether(code: seq<Instruction>, regions: seq<Region>, r: Region, s: int, i: int, j: int)
    requires code != [] && Cuts(code, LeaderCuts(code, regions)) && Increasing(code)
    requires 0 <= s < |code| && code[s].offset == r.start && Leader(code, regions, r.start)
    requires forall n :: FirstAfter(code, r, n) ==> Leader(code, regions, code[n].offset)
    requires 0 <= i < j < |code|
    requires BlockOf(code, LeaderCuts(code, regions), i) == BlockOf(code, LeaderCuts(code, regions), j)
    ensures r.start <= code[i].offset < r.end <==> r.start <= code[j].offset < r.end
  {
    hide LeaderCuts, Leader, Cuts;
    NotSplit(code, regions, s, i, j);
    if code[i].offset < r.end <= code[j].offset {
      var n := FirstAfterExists(code, r, j);
      NotSplit(code, regions, n, i, j);
    }
  }

  lemma Straddles(code: seq<Instruction>, regions: seq<Region>, r: Region, s: int, n: int)
    requires code != [] && Cuts(code, LeaderCuts(code, regions)) && Increasing(code)
    requires 0 <= s < |code| && code[s].offset == r.start && r.start < r.end
    requires FirstAfter(code, r, n) && !Leader(code, regions, code[n].offset)
    ensures !Aligned(code, LeaderCuts(code, regions), r)
  {
    hide LeaderCuts, Leader;
    var cuts := LeaderCuts(code, regions);
    LeaderStarts(code, regions, n);
    var k := BlockOf(code, cuts, n);
    BlockUnique(code, cuts, n - 1, k, BlockOf(code, cuts, n - 1));
    assert r.start <= code[n - 1].offset < r.end <= code[n].offset;
  }

  lemma FirstAfterExists(code: seq<Instruction>, r: Region, j: int) returns (n: int)
    requires 0 <= j < |code| && code[j].offset >= r.end
    ensures FirstAfter(code, r, n) && n <= j
  {
    n := 0;
    while code[n].offset < r.end
      invariant 0 <= n <= j && forall i :: 0 <= i < n ==> code[i].offset < r.end
      decreases j - n
    {
      n := n + 1;
    }
  }

  /** No leader lies strictly between, or at the end of, two instructions of one block. */
  lemma NotSplit(code: seq<Instruction>, regions: seq<Region>, s: int, i: int, j: int)
    requires code != [] && Cuts(code, LeaderCuts(code, regions))
    requires 0 <= s < |code| && Leader(code, regions, code[s].offset)
    requires 0 <= i < j < |code|
    requires BlockOf(code, LeaderCuts(code, regions), i) == BlockOf(code, LeaderCuts(code, regions), j)
    ensures s <= i || j < s
  {
    var cuts := LeaderCuts(code, regions);
    LeaderStarts(code, regions, s);
    var k := BlockOf(code, cuts, i);
    if i < s <= j {
      BlockUnique(code, cuts, s, k, BlockOf(code, cuts, s));
    }
  }

  // ---------- what the labels mean ----------

  /** What can happen when an instruction is done; `Taken` and `Passed` are jumps and steps without a question. */
  datatype Event =
    | FoundTrue | FoundFalse | FoundNone | FoundNotNone | RanOut | GotItem | CameBack | GaveValue | Taken | Passed

  /** The offset an instruction can jump to: recorded, or the integer operand of a jump. */
  function JumpOffset(i: Instruction): Option<int> {
    match i.target
    case Some(_) => i.target
    case None =>
      if !i.attr.IntAttr? then None else
        match i.kind
        case JumpForward => Some(i.attr.n)
        case JumpBackward => Some(i.attr.n)
        case JumpBackwardNoInterrupt => Some(i.attr.n)
        case PopJump(_, _) => Some(i.attr.n)
        case JumpIfOrPop(_) => Some(i.attr.n)
        case ForIter => Some(i.attr.n)
        case Send => Some(i.attr.n)
        case _ => None
  }

  /** Which events an instruction has. */
  predicate Happens(i: Instruction, ev: Event) {
    match i.kind
    case RaiseVarargs => false
    case Reraise => false
    case ReturnValue => false
    case JumpForward => ev.Taken?
    case JumpBackward => ev.Taken?
    case JumpBackwardNoInterrupt => ev.Taken?
    case _ =>
      if JumpOffset(i) == None then ev.Passed? else
        match i.kind
        case PopJump(_, WhenTrue) => ev.FoundTrue? || ev.FoundFalse?
        case PopJump(_, WhenFalse) => ev.FoundTrue? || ev.FoundFalse?
        case PopJump(_, WhenNone) => ev.FoundNone? || ev.FoundNotNone?
        case PopJump(_, WhenNotNone) => ev.FoundNone? || ev.FoundNotNone?
        case JumpIfOrPop(_) => ev.FoundTrue? || ev.FoundFalse?
        case ForIter => ev.RanOut? || ev.GotItem?
        case Send => ev.CameBack? || ev.GaveValue?
        case _ => ev.Taken? || ev.Passed?
  }

  /** Whether control jumps on an event: on the tested outcome, at the end of an iterator, when a generator returned. */
  predicate JumpsOn(kind: Kind, ev: Event) {
    match ev
    case FoundTrue => kind == JumpIfOrPop(true) || (kind.PopJump? && kind.on == WhenTrue)
    case FoundFalse => kind == JumpIfOrPop(false) || (kind.PopJump? && kind.on == WhenFalse)
    case FoundNone => kind.PopJump? && kind.on == WhenNone
    case FoundNotNone => kind.PopJump? && kind.on == WhenNotNone
    case RanOut => kind == ForIter
    case CameBack => kind == Send
    case Taken => true
    case GotItem => false
    case GaveValue => false
    case Passed => false
  }

  /** How edges spell the events. */
  function Label(ev: Event): EdgeKind {
    match ev
    case FoundTrue => IfTrue
    case FoundFalse => IfFalse
    case FoundNone => IfNone
    case FoundNotNone => IfNotNone
    case RanOut => Exhausted
    case GotItem => Iterate
    case CameBack => Returned
    case GaveValue => Yielded
    case Taken => Jump
    case Passed => Fallthrough
  }

  /** Where control goes on from instruction i. */
  function GoesOn(code: seq<Instruction>, i: nat, ev: Event): Option<int>
    requires i < |code|
  {
    if JumpsOn(code[i].kind, ev) then JumpOffset(code[i])
    else if i + 1 < |code| then Some(code[i + 1].offset)
    else None
  }

  /** The event that a normal edge spells. */
  function EventOf(kind: EdgeKind): (ev: Event)
    requires !kind.Exception?
    ensures Label(ev) == kind && forall other :: Label(other) == kind ==> other == ev
  {
    match kind
    case IfTrue => FoundTrue
    case IfFalse => FoundFalse
    case IfNone => FoundNone
    case IfNotNone => FoundNotNone
    case Exhausted => RanOut
    case Iterate => GotItem
    case Returned => CameBack
    case Yielded => GaveValue
    case Jump => Taken
    case Fallthrough => Passed
  }

  lemma JumpOffsetExact(i: Instruction)
    ensures InstructionTarget(i) == JumpOffset(i)
  {
  }

  lemma EventsExact(i: Instruction, kind: EdgeKind)
    requires !kind.Exception?
    ensures !Terminator(i.kind) && InstructionTarget(i).Some?
            && kind == (if UnconditionalJump(i.kind) then Jump else EdgeKinds(i.kind).0) <==>
              Happens(i, EventOf(kind)) && JumpsOn(i.kind, EventOf(kind)) && JumpOffset(i).Some?
    ensures !Terminator(i.kind) && !UnconditionalJump(i.kind)
            && kind == (if InstructionTarget(i).Some? then EdgeKinds(i.kind).1 else Fallthrough) <==>
              Happens(i, EventOf(kind)) && !JumpsOn(i.kind, EventOf(kind))
  {
    JumpOffsetExact(i);
    hide InstructionTarget, JumpOffset;
  }

  /**
   The normal edges of a block of a built graph are exactly the events of its last instruction:
   the edge with an event's label leads to the block where control goes on.
   */
  lemma LabelsMean(code: seq<Instruction>, regions: seq<Region>, cfg: ControlFlowGraph, e: Edge) returns (i: nat)
    requires code != [] && Built(code, regions, cfg) && Resolvable(code, regions) && Increasing(code)
    requires 0 <= e.source < |cfg.blocks| && !e.kind.Exception?
    ensures i < |code| && cfg.blocks[e.source].instructions != []
    ensures LastOf(cfg.blocks[e.source]) == code[i]
    ensures e in cfg.edges <==>
              && Happens(code[i], EventOf(e.kind))
              && 0 <= e.target < |cfg.blocks| && GoesOn(code, i, EventOf(e.kind)) == Some(cfg.blocks[e.target].start)
  {
    hide LeaderCuts, Leader, Flagged, Happens, JumpsOn, JumpOffset, EventOf, InstructionTarget, EdgeKinds;
    var cuts := LeaderCuts(code, regions);
    var k := e.source;
    TiledLast(code, cuts, cfg.blocks, k);
    i := Stop(code, cuts, k) - 1;
    EventsExact(code[i], e.kind);
    JumpOffsetExact(code[i]);
    NotException(cfg, regions, e);
    StartsAt(code, regions, cfg, i, k, e.target);
  }

  /** Two normal edges of one block never carry the same label. */
  lemma LabelsDiffer(code: seq<Instruction>, regions: seq<Region>, cfg: ControlFlowGraph, e: Edge, f: Edge)
    requires code != [] && Built(code, regions, cfg) && Resolvable(code, regions) && Increasing(code)
    requires e in cfg.edges && f in cfg.edges && e.source == f.source && !e.kind.Exception? && e.kind == f.kind
    requires 0 <= e.source < |cfg.blocks|
    ensures e == f
  {
    hide Happens, JumpsOn, JumpOffset, EventOf, GoesOn;
    var i := LabelsMean(code, regions, cfg, e);
    var j := LabelsMean(code, regions, cfg, f);
    LastIndexUnique(code, i, j);
    SameStart(code, regions, cfg, e.target, f.target);
  }

  lemma LastIndexUnique(code: seq<Instruction>, i: nat, j: nat)
    requires Increasing(code) && i < |code| && j < |code| && code[i] == code[j]
    ensures i == j
  {
  }

  lemma SameStart(code: seq<Instruction>, regions: seq<Region>, cfg: ControlFlowGraph, s: int, t: int)
    requires code != [] && Built(code, regions, cfg) && Increasing(code)
    requires 0 <= s < |cfg.blocks| && 0 <= t < |cfg.blocks| && cfg.blocks[s].start == cfg.blocks[t].start
    ensures s == t
  {
    hide LeaderCuts, Flagged, BlockEdge, Locates;
    var cuts := LeaderCuts(code, regions);
    TiledLast(code, cuts, cfg.blocks, s);
    TiledLast(code, cuts, cfg.blocks, t);
  }

  /** Each event of the last instruction of block k has its edge, to a block that begins where control goes on. */
  lemma EventHasEdge(code: seq<Instruction>, regions: seq<Region>, cfg: ControlFlowGraph, k: nat, ev: Event)
    returns (i: nat, e: Edge)
    requires code != [] && Built(code, regions, cfg) && Resolvable(code, regions) && Increasing(code)
    requires k < |cfg.blocks|
    ensures i < |code| && cfg.blocks[k].instructions != [] && LastOf(cfg.blocks[k]) == code[i]
    ensures Happens(code[i], ev) && GoesOn(code, i, ev).Some? ==>
              && e in cfg.edges && e.source == k && e.kind == Label(ev)
              && 0 <= e.target < |cfg.blocks| && GoesOn(code, i, ev) == Some(cfg.blocks[e.target].start)
  {
    hide LeaderCuts, Leader, Flagged, BlockEdge, Happens, JumpsOn, JumpOffset, InstructionTarget, Locates;
    var cuts := LeaderCuts(code, regions);
    TiledLast(code, cuts, cfg.blocks, k);
    i := Stop(code, cuts, k) - 1;
    JumpOffsetExact(code[i]);
    var jumps := JumpsOn(code[i].kind, ev);
    var t := if !jumps then k + 1
             else if JumpOffset(code[i]).Some? then BlockAt(cfg, JumpOffset(code[i]).value)
             else 0;
    StartsAt(code, regions, cfg, i, k, t);
    NextBlock(code, cuts, cfg, i, k);
    e := Edge(k, t, Label(ev));
    LabelNormal(ev);
    var m := LabelsMean(code, regions, cfg, e);
    LastIndexUnique(code, i, m);
  }

  function BlockAt(cfg: ControlFlowGraph, o: int): int {
    if o in cfg.offsetToBlock then cfg.offsetToBlock[o] else 0
  }

  lemma NextBlock(code: seq<Instruction>, cuts: seq<int>, cfg: ControlFlowGraph, i: nat, k: nat)
    requires Tiles(code, cuts, cfg.blocks) && k < |cfg.blocks| && i == Stop(code, cuts, k) - 1
    ensures i + 1 < |code| ==> k + 1 < |cfg.blocks|
  {
  }

  lemma LabelNormal(ev: Event)
    ensures !Label(ev).Exception? && EventOf(Label(ev)) == ev
  {
  }

  lemma NotException(cfg: ControlFlowGraph, regions: seq<Region>, e: Edge)
    requires !e.kind.Exception? && 0 <= e.source < |cfg.blocks| && cfg.blocks[e.source].instructions != []
    ensures BlockEdge(cfg.blocks, regions, cfg.offsetToBlock, e) <==>
              NormalEdge(cfg.blocks, cfg.offsetToBlock, e.source, e)
  {
  }

  /** Which block begins at the target of instruction i, and which one begins after it. */
  lemma StartsAt(code: seq<Instruction>, regions: seq<Region>, cfg: ControlFlowGraph, i: nat, k: nat, t: int)
    requires code != [] && Built(code, regions, cfg) && Resolvable(code, regions) && Increasing(code)
    requires k < |cfg.blocks| && i < |code| && i == Stop(code, LeaderCuts(code, regions), k) - 1
    ensures InstructionTarget(code[i]).Some? ==>
              && InstructionTarget(code[i]).value in cfg.offsetToBlock
              && (t == cfg.offsetToBlock[InstructionTarget(code[i]).value] <==>
                    0 <= t < |cfg.blocks| && cfg.blocks[t].start == InstructionTarget(code[i]).value)
    ensures t == k + 1 && k + 1 < |cfg.blocks| <==>
              0 <= t < |cfg.blocks| && i + 1 < |code| && cfg.blocks[t].start == code[i + 1].offset
  {
    hide Leader, Flagged, InstructionTarget, BlockEdge;
    var cuts := LeaderCuts(code, regions);
    hide LeaderCuts;
    if 0 <= t < |cfg.blocks| {
      TiledLast(code, cuts, cfg.blocks, t);
    }
    if InstructionTarget(code[i]).Some? {
      var o := InstructionTarget(code[i]).value;
      TargetLeads(code, regions, i);
      var j := LocatedStart(code, regions, cfg.offsetToBlock, o);
      BlocksDiffer(code, cuts, cfg, j, t);
    }
  }

  lemma TargetLeads(code: seq<Instruction>, regions: seq<Region>, i: nat)
    requires code != [] && Resolvable(code, regions) && i < |code| && InstructionTarget(code[i]).Some?
    ensures InstructionTarget(code[i]).value in Offsets(code)
    ensures Leader(code, regions, InstructionTarget(code[i]).value)
  {
    hide InstructionTarget;
    assert Resolved(code, code[i]);
    assert Marks(code, i, InstructionTarget(code[i]).value);
  }

  /** A block that begins at instruction j is the block at j. */
  lemma BlocksDiffer(code: seq<Instruction>, cuts: seq<int>, cfg: ControlFlowGraph, j: int, t: int)
    requires Tiles(code, cuts, cfg.blocks) && Increasing(code) && 0 <= j < |code|
    requires 0 <= BlockOf(code, cuts, j) < |cuts| && cuts[BlockOf(code, cuts, j)] == j
    ensures t == BlockOf(code, cuts, j) <==> 0 <= t < |cfg.blocks| && cfg.blocks[t].start == code[j].offset
  {
    hide BlockOf, IsBlock;
    var b := BlockOf(code, cuts, j);
    TiledLast(code, cuts, cfg.blocks, b);
    if 0 <= t < |cfg.blocks| {
      TiledLast(code, cuts, cfg.blocks, t);
    }
  }

  /** The view of a built graph is rooted: what the dominator analysis assumes. */
  lemma ViewIsRooted(code: seq<Instruction>, regions: seq<Region>, cfg: ControlFlowGraph)
    requires code != [] && Built(code, regions, cfg)
    ensures cfg.View().Rooted() && cfg.View().entry in cfg.View().nodes
  {
    hide IsBlock, Locates, BlockEdge, LeaderCuts;
    RestrictToReachable(Graph(Below(|cfg.blocks|), cfg.edges, 0), cfg.View(), 0);
  }

  /** The next instruction may be entered otherwise, or a region begins or ends there. */
  ghost predicate Entered(code: seq<Instruction>, regions: seq<Region>, o: int) {
    || (exists j :: 0 <= j < |code| && JumpOffset(code[j]) == Some(o))
    || (exists r :: r in regions && (r.start == o || r.end == o || r.target == o))
  }

  /**
   Blocks are maximal: neighbours share one exactly unless the first of them can jump or ends the
   flow, or the second is a jump target or the bound or handler of a region.
   */
  lemma SameBlockExact(code: seq<Instruction>, regions: seq<Region>, cfg: ControlFlowGraph, i: int)
    requires Increasing(code) && 0 <= i < |code| - 1 && Built(code, regions, cfg)
    ensures code[i].offset in cfg.offsetToBlock && code[i + 1].offset in cfg.offsetToBlock
    ensures cfg.offsetToBlock[code[i].offset] == cfg.offsetToBlock[code[i + 1].offset] <==>
              && JumpOffset(code[i]) == None
              && !(code[i].kind.ReturnValue? || code[i].kind.RaiseVarargs? || code[i].kind.Reraise?)
              && !Entered(code, regions, code[i + 1].offset)
  {
    hide LeaderCuts, Flagged, InstructionTarget, JumpOffset, Leader, Locates;
    var cuts := LeaderCuts(code, regions);
    LocatesAt(code, cuts, cfg.offsetToBlock, i);
    LocatesAt(code, cuts, cfg.offsetToBlock, i + 1);
    LeaderStarts(code, regions, i + 1);
    NeighbourBlocks(code, cuts, i);
    LeaderMeans(code, regions, i);
  }

  lemma NeighbourBlocks(code: seq<Instruction>, cuts: seq<int>, i: int)
    requires Cuts(code, cuts) && 0 <= i < |code| - 1
    ensures BlockOf(code, cuts, i) == BlockOf(code, cuts, i + 1) <==> cuts[BlockOf(code, cuts, i + 1)] != i + 1
  {
    var k := BlockOf(code, cuts, i + 1);
    if cuts[k] != i + 1 {
      BlockUnique(code, cuts, i, k, BlockOf(code, cuts, i));
    }
  }

  lemma LeaderMeans(code: seq<Instruction>, regions: seq<Region>, i: int)
    requires Increasing(code) && 0 <= i < |code| - 1
    ensures Leader(code, regions, code[i + 1].offset) <==>
              || JumpOffset(code[i]) != None
              || code[i].kind.ReturnValue? || code[i].kind.RaiseVarargs? || code[i].kind.Reraise?
              || Entered(code, regions, code[i + 1].offset)
  {
    hide InstructionTarget, JumpOffset;
    var o := code[i + 1].offset;
    forall j | 0 <= j < |code|
      ensures Marks(code, j, o) <==>
                || JumpOffset(code[j]) == Some(o)
                || (j == i && (JumpOffset(code[i]) != None || Terminator(code[i].kind)))
    {
      JumpOffsetExact(code[j]);
    }
    if JumpOffset(code[i]) != None || Terminator(code[i].kind) {
      assert Marks(code, i, o);
    }
    if j :| 0 <= j < |code| && JumpOffset(code[j]) == Some(o) {
      assert Marks(code, j, o);
    }
  }
}
