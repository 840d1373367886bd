/**
 Nested straight-line calls as the compiler emits them, and the proof that the normalizer gives
 every CALL the metadata of its own call node.
 */
module NestedCalls {
  import opened Options
  import opened ExceptionTables
  import opened Opcodes
  import opened StackAnalyses
  import opened Normalizers

  /** An instruction without its place; `names` are the keyword names of KW_NAMES. */
  datatype Op = Op(name: Kind, names: Option<seq<string>>, shape: Shape)

  /**
   An expression: straight-line instructions that leave one value for all operands (loads,
   constants, attribute and arithmetic operations, container builds, function creation, an
   assignment expression's copy and store), an expression after an instruction that leaves the
   stack alone (such as EXTENDED_ARG), or a call.
   */
  datatype Tree =
    | Operation(ops: seq<Op>, operands: seq<Tree>)
    | Prefixed(idle: Op, tree: Tree)
    | Invoke(callee: Callee, args: seq<Tree>, names: seq<string>)
    | InvokeUnpacked(callee: Callee, containers: seq<Tree>)

  /**
   The call protocols: a global loaded with a null, a null below any callee, a method lookup, and a
   bare pair of values as comprehensions, decorators and assertion messages leave it.
   */
  datatype Callee =
    | GlobalCallee
    | NullCallee(callable: Tree)
    | MethodCallee(receiver: Tree)
    | PairCallee(made: Tree, given: Tree)

  function ModeOf(c: Callee): ReceiverMode {
    match c
    case GlobalCallee => NullReceiver
    case NullCallee(_) => NullReceiver
    case MethodCallee(_) => SelfOrNullReceiver
    case PairCallee(_, _) => UnknownReceiver
  }

  /** A straight-line instruction that is no part of a call protocol. */
  predicate PlainOp(op: Op) {
    && !EndsFlow(op.name)
    && !op.name.KwNames? && !op.name.Precall? && !op.name.Call? && !op.name.CallFunctionEx?
    && !op.name.PushNull? && !op.name.LoadMethod?
    && (op.name.LoadGlobal? ==> op.shape.push == 1)
  }

  /** With k values of their own on the stack, the instructions find their operands and leave one value. */
  predicate Reduces(ops: seq<Op>, k: int): (r: bool)
    ensures r && ops != [] ==> !ops[|ops| - 1].name.KwNames?
  {
    if ops == [] then k == 1
    else PlainOp(ops[0]) && ops[0].shape.required <= k && Reduces(ops[1..], k + ops[0].shape.effect)
  }

  predicate Idle(op: Op) {
    PlainOp(op) && op.shape.required <= 0 && op.shape.effect == 0
  }

  /** Keyword names label trailing arguments; an unpacked call has positional and perhaps keyword containers. */
  ghost predicate Valid(t: Tree) {
    match t
    case Operation(ops, ts) => Reduces(ops, |ts|) && forall x :: x in ts ==> Valid(x)
    case Prefixed(op, u) => Idle(op) && Valid(u)
    case Invoke(callee, args, names) => |names| <= |args| && ValidCallee(callee) && forall x :: x in args ==> Valid(x)
    case InvokeUnpacked(callee, containers) =>
      1 <= |containers| <= 2 && ValidCallee(callee) && forall x :: x in containers ==> Valid(x)
  }

  ghost predicate ValidCallee(c: Callee) {
    match c
    case GlobalCallee => true
    case NullCallee(f) => Valid(f)
    case MethodCallee(r) => Valid(r)
    case PairCallee(made, given) => Valid(made) && Valid(given)
  }

  const NULL_OP := Op(PushNull, None, Popping(0, 1))
  const GLOBAL_OP := Op(LoadGlobal, None, Popping(0, 2))
  const METHOD_OP := Op(LoadMethod, None, Popping(1, 2))
  const CALL_OP := Op(Call, None, Popping(2, 1))

  function NamesOp(names: seq<string>): Op {
    Op(KwNames, Some(names), Shape(0, 0, 0, None, 0))
  }

  function PrecallOp(argc: nat): Op {
    Op(Precall, None, Shape(argc, 0, 0 - argc, None, argc + 2))
  }

  function UnpackedOp(containers: nat): Op {
    Op(CallFunctionEx, None, Popping(containers + 2, 1))
  }

  /** The call site an instruction belongs to, if it is a call. */
  datatype CallSite =
    | Counted(argc: nat, names: seq<string>, mode: ReceiverMode)
    | Unpacked(hasKwargs: bool, mode: ReceiverMode)

  ghost function Code(t: Tree): (ops: seq<Op>)
    ensures Valid(t) ==> ops != [] && !ops[|ops| - 1].name.KwNames?
    decreases t, 1
  {
    match t
    case Operation(ops, ts) => CodeAll(ts) + ops
    case Prefixed(op, u) => [op] + Code(u)
    case Invoke(callee, args, names) => CalleeCode(callee) + CodeAll(args) + CallTail(|args|, names)
    case InvokeUnpacked(callee, containers) => CalleeCode(callee) + CodeAll(containers) + [UnpackedOp(|containers|)]
  }

  ghost function CalleeCode(c: Callee): (ops: seq<Op>)
    ensures ValidCallee(c) ==> ops != [] && !ops[|ops| - 1].name.KwNames?
    decreases c, 0
  {
    match c
    case GlobalCallee => [GLOBAL_OP]
    case NullCallee(f) => [NULL_OP] + Code(f)
    case MethodCallee(r) => Code(r) + [METHOD_OP]
    case PairCallee(made, given) => Code(made) + Code(given)
  }

  ghost function CodeAll(ts: seq<Tree>): (ops: seq<Op>)
    ensures (forall x :: x in ts ==> Valid(x)) && ts != [] ==> ops != []
    ensures (forall x :: x in ts ==> Valid(x)) && ops != [] ==> !ops[|ops| - 1].name.KwNames?
    decreases ts, 0
  {
    if ts == [] then [] else CodeAll(ts[..|ts| - 1]) + Code(ts[|ts| - 1])
  }

  /** Keyword names when there are any, then PRECALL and CALL. */
  ghost function CallTail(argc: nat, names: seq<string>): seq<Op> {
    (if names == [] then [] else [NamesOp(names)]) + [PrecallOp(argc), CALL_OP]
  }

  function NoSites(n: nat): (sites: seq<Option<CallSite>>)
    ensures |sites| == n
  {
    seq(n, _ => None)
  }

  /** The call node of every instruction of Code(t), in order. */
  ghost function Sites(t: Tree): (sites: seq<Option<CallSite>>)
    ensures |sites| == |Code(t)|
    decreases t, 1
  {
    match t
    case Operation(ops, ts) => SitesAll(ts) + NoSites(|ops|)
    case Prefixed(_, u) => [None] + Sites(u)
    case Invoke(callee, args, names) =>
      CalleeSites(callee) + SitesAll(args) + TailSites(|args|, names, ModeOf(callee))
    case InvokeUnpacked(callee, containers) =>
      CalleeSites(callee) + SitesAll(containers) + [Some(Unpacked(|containers| == 2, ModeOf(callee)))]
  }

  ghost function CalleeSites(c: Callee): (sites: seq<Option<CallSite>>)
    ensures |sites| == |CalleeCode(c)|
    decreases c, 0
  {
    match c
    case GlobalCallee => [None]
    case NullCallee(f) => [None] + Sites(f)
    case MethodCallee(r) => Sites(r) + [None]
    case PairCallee(made, given) => Sites(made) + Sites(given)
  }

  ghost function SitesAll(ts: seq<Tree>): (sites: seq<Option<CallSite>>)
    ensures |sites| == |CodeAll(ts)|
    decreases ts, 0
  {
    if ts == [] then [] else SitesAll(ts[..|ts| - 1]) + Sites(ts[|ts| - 1])
  }

  ghost function TailSites(argc: nat, names: seq<string>, mode: ReceiverMode): (sites: seq<Option<CallSite>>)
    ensures |sites| == |CallTail(argc, names)|
  {
    (if names == [] then [] else [None]) + [None, Some(Counted(argc, names, mode))]
  }

  // ---------- a normalized program that contains the code ----------

  datatype Program = Program(code: seq<NormalizedInstruction>, handlers: seq<Region>, depths: map<int, int>)

  /** Validation and stack analysis have succeeded. */
  ghost predicate Analysed(p: Program) {
    && Increasing(p.code)
    && CallsValid(p.code)
    && Consistent(p.code, p.handlers)
    && forall c :: Reachable(p.code, p.handlers, c) <==> Records(p.depths, c)
  }

  ghost predicate Emits(code: seq<NormalizedInstruction>, a: nat, ops: seq<Op>) {
    && a + |ops| <= |code|
    && forall k :: 0 <= k < |ops| ==> IsOp(code[a + k], ops[k])
  }

  /** A straight-line instruction of this kind with a tabulated shape; its operand is otherwise free. */
  ghost predicate IsOp(i: NormalizedInstruction, op: Op) {
    && i.name == op.name && i.shape == op.shape && i.target == None && WellShaped(i)
    && (op.names.Some? ==> i.argval == Names(op.names.value))
  }

  lemma EmitsSplit(code: seq<NormalizedInstruction>, a: nat, x: seq<Op>, y: seq<Op>)
    requires Emits(code, a, x + y)
    ensures Emits(code, a, x) && Emits(code, a + |x|, y)
  {
    hide IsOp;
    forall k | 0 <= k < |x| ensures IsOp(code[a + k], x[k]) {
      assert (x + y)[k] == x[k];
    }
    forall k | 0 <= k < |y| ensures IsOp(code[a + |x| + k], y[k]) {
      assert (x + y)[|x| + k] == y[k];
    }
  }

  /** Instruction n is analysed, and runs on exactly the symbolic stack st. */
  ghost predicate On(p: Program, n: nat, st: Stack) {
    && n < |p.code|
    && p.code[n].offset in p.depths
    && StackBefore(p.code, p.depths, n) == st
    && |st| == p.depths[p.code[n].offset]
  }

  ghost function Metadata(p: Program, n: nat): Option<CallInfo>
    requires n < |p.code|
  {
    MetadataOf(p.code[n], StackBefore(p.code, p.depths, n), Contexts(p.code, |p.code|))
  }

  /** What the call of a node should say, with the places of its PRECALL and keyword names. */
  ghost function Expected(code: seq<NormalizedInstruction>, n: nat, s: CallSite): CallInfo
    requires s.Counted? ==> 2 <= n < |code|
  {
    var bound, free := s.mode.SelfOrNullReceiver?, s.mode.NullReceiver?;
    match s
    case Counted(argc, names, mode) =>
      CallInfo(Some(argc), Some(argc - |names|), names, bound, free, bound, mode, false, names != [],
               Some(code[n - 1].offset), if names == [] then None else Some(code[n - 2].offset))
    case Unpacked(hasKwargs, mode) =>
      CallInfo(None, None, [], bound, free, bound, mode, true, hasKwargs, None, None)
  }

  ghost predicate Meets(p: Program, n: nat, site: Option<CallSite>)
    requires n < |p.code|
  {
    match site
    case None => Metadata(p, n) == None
    case Some(s) => (s.Counted? ==> 2 <= n) && Metadata(p, n) == Some(Expected(p.code, n, s))
  }

  ghost predicate AllMeet(p: Program, a: nat, sites: seq<Option<CallSite>>) {
    && a + |sites| <= |p.code|
    && forall k :: 0 <= k < |sites| ==> Meets(p, a + k, sites[k])
  }

  lemma AllMeetJoin(p: Program, a: nat, x: seq<Option<CallSite>>, y: seq<Option<CallSite>>)
    requires AllMeet(p, a, x) && AllMeet(p, a + |x|, y)
    ensures AllMeet(p, a, x + y)
  {
    forall k | 0 <= k < |x + y| ensures Meets(p, a + k, (x + y)[k]) {
      if k >= |x| {
        assert Meets(p, a + |x| + (k - |x|), y[k - |x|]);
      }
    }
  }

  /** A value that no call protocol puts on the stack. */
  predicate Ordinary(v: StackValue) {
    !v.kind.NullValue? && !v.kind.MethodValue? && !v.kind.SelfOrNull?
  }

  predicate AllOrdinary(vs: Stack) {
    forall i :: 0 <= i < |vs| ==> Ordinary(vs[i])
  }

  /** The two values below the arguments show the protocol. */
  predicate Announces(mode: ReceiverMode, v: StackValue, w: StackValue) {
    match mode
    case NullReceiver => v.kind.NullValue?
    case SelfOrNullReceiver => v.kind.MethodValue?
    case UnknownReceiver => Ordinary(v) && Ordinary(w)
  }

  /** Plain instructions make ordinary values from ordinary values. */
  lemma AppliedOrdinary(vs: Stack, i: NormalizedInstruction, op: Op)
    requires IsOp(i, op) && PlainOp(op) && |vs| >= op.shape.required && AllOrdinary(vs)
    ensures AllOrdinary(Applied(vs, i))
  {
    SpecialShapes(i);
    hide WellShaped;
    RepeatOrdinary(StackValue(PlainValue, Some(i.offset)), i.shape.push);
  }

  lemma {:induction false} RepeatOrdinary(v: StackValue, n: int)
    requires Ordinary(v)
    ensures AllOrdinary(Repeat(v, n))
    decreases n
  {
    if n > 0 {
      RepeatOrdinary(v, n - 1);
    }
  }

  /** An emitted instruction falls through, and carries call metadata only if it is a call. */
  lemma OpStep(p: Program, n: nat, op: Op, st: Stack)
    requires Analysed(p) && On(p, n, st) && n + 1 < |p.code| && IsOp(p.code[n], op) && !EndsFlow(op.name)
    ensures On(p, n + 1, Applied(st, p.code[n]))
    ensures !op.name.Call? && !op.name.CallFunctionEx? ==> Meets(p, n, None)
  {
    hide Reachable, Consistent, CallsValid, Applied, WellShaped, RawStack;
    NoResynchronisation(p.code, p.handlers, p.depths, n);
    RawNext(p, n);
  }

  lemma RawNext(p: Program, n: nat)
    requires n < |p.code|
    ensures RawStack(p.code, p.depths, n + 1) == Applied(StackBefore(p.code, p.depths, n), p.code[n])
  {
  }

  /** A plain instruction works on its own part of the stack. */
  lemma PlainStep(p: Program, n: nat, op: Op, st: Stack, vs: Stack)
    requires Analysed(p) && On(p, n, st + vs) && n + 1 < |p.code| && IsOp(p.code[n], op)
    requires PlainOp(op) && |vs| >= op.shape.required && AllOrdinary(vs)
    ensures var us := Applied(vs, p.code[n]);
            && On(p, n + 1, st + us) && Meets(p, n, None)
            && |us| == |vs| + op.shape.effect && AllOrdinary(us)
  {
    AppliedOrdinary(vs, p.code[n], op);
    hide Analysed, On, Meets, Applied, WellShaped;
    OpStep(p, n, op, st + vs);
    AppliedLocal(st, vs, p.code[n]);
    AppliedLength(vs, p.code[n]);
  }

  /** Reducing instructions replace their operands by one value, whatever lies below them. */
  lemma {:induction false} OpsRun(p: Program, n: nat, ops: seq<Op>, st: Stack, vs: Stack) returns (v: StackValue)
    requires Analysed(p) && On(p, n, st + vs) && Emits(p.code, n, ops) && n + |ops| < |p.code|
    requires Reduces(ops, |vs|) && AllOrdinary(vs)
    ensures On(p, n + |ops|, st + [v]) && Ordinary(v)
    ensures AllMeet(p, n, NoSites(|ops|))
    decreases |ops|
  {
    hide Analysed, On, Meets, Applied, IsOp, PlainOp, Ordinary, Emits, AllMeet;
    if ops == [] {
      v := vs[0];
      assert vs == [v];
      NothingMeets(p, n);
    } else {
      assert ops == [ops[0]] + ops[1..];
      EmitsSplit(p.code, n, [ops[0]], ops[1..]);
      OneEmitted(p.code, n, ops[0]);
      PlainStep(p, n, ops[0], st, vs);
      v := OpsRun(p, n + 1, ops[1..], st, Applied(vs, p.code[n]));
      OneMeets(p, n, None);
      AllMeetJoin(p, n, [None], NoSites(|ops| - 1));
      assert NoSites(|ops|) == [None] + NoSites(|ops| - 1);
    }
  }

  lemma NothingMeets(p: Program, n: nat)
    requires n <= |p.code|
    ensures AllMeet(p, n, NoSites(0))
  {
  }

  lemma IdleStep(p: Program, n: nat, op: Op, st: Stack)
    requires Analysed(p) && On(p, n, st) && n + 1 < |p.code| && IsOp(p.code[n], op) && Idle(op)
    ensures On(p, n + 1, st) && Meets(p, n, None)
  {
    hide Analysed, On, Meets, Applied, WellShaped;
    OpStep(p, n, op, st);
    assert st + [] == st;
    AppliedLocal(st, [], p.code[n]);
    AppliedLength([], p.code[n]);
    assert Applied([], p.code[n]) == [];
  }

  lemma NullStep(p: Program, n: nat, st: Stack) returns (v: StackValue)
    requires Analysed(p) && On(p, n, st) && n + 1 < |p.code| && IsOp(p.code[n], NULL_OP)
    ensures On(p, n + 1, st + [v]) && Meets(p, n, None)
    ensures v.kind == NullValue
  {
    hide Analysed, On, Meets, WellShaped;
    OpStep(p, n, NULL_OP, st);
    v := StackValue(NullValue, Some(p.code[n].offset));
    assert Applied(st, p.code[n]) == st + [v];
  }

  /** A load that pushes a null below the global. */
  lemma NullGlobalStep(p: Program, n: nat, st: Stack) returns (v: StackValue, w: StackValue)
    requires Analysed(p) && On(p, n, st) && n + 1 < |p.code| && IsOp(p.code[n], GLOBAL_OP)
    ensures On(p, n + 1, st + [v, w]) && Meets(p, n, None)
    ensures v.kind == NullValue
  {
    hide Analysed, On, Meets, WellShaped;
    OpStep(p, n, GLOBAL_OP, st);
    SpecialShapes(p.code[n]);
    v, w := StackValue(NullValue, Some(p.code[n].offset)), StackValue(PlainValue, Some(p.code[n].offset));
    assert Applied(st, p.code[n]) == st + [v, w];
  }

  /** A method lookup replaces the receiver by the method and its self. */
  lemma MethodStep(p: Program, n: nat, st: Stack, r: StackValue) returns (v: StackValue, w: StackValue)
    requires Analysed(p) && On(p, n, st + [r]) && n + 1 < |p.code| && IsOp(p.code[n], METHOD_OP)
    ensures On(p, n + 1, st + [v, w]) && Meets(p, n, None)
    ensures v.kind == MethodValue
  {
    hide Analysed, On, Meets, WellShaped;
    OpStep(p, n, METHOD_OP, st + [r]);
    v, w := StackValue(MethodValue, Some(p.code[n].offset)), StackValue(SelfOrNull, Some(p.code[n].offset));
    assert Applied(st + [r], p.code[n]) == st + [v, w];
  }

  lemma NamesStep(p: Program, n: nat, names: seq<string>, st: Stack)
    requires Analysed(p) && On(p, n, st) && n + 1 < |p.code| && IsOp(p.code[n], NamesOp(names))
    ensures On(p, n + 1, st) && Meets(p, n, None)
  {
    hide Analysed, On, Meets, WellShaped;
    OpStep(p, n, NamesOp(names), st);
    assert Applied(st, p.code[n]) == st;
  }

  /** PRECALL takes the arguments; the CALL after it carries the same count. */
  lemma PrecallStep(p: Program, n: nat, argc: nat, st: Stack, vs: Stack)
    requires Analysed(p) && On(p, n, st + vs) && n + 1 < |p.code| && |vs| == argc
    requires IsOp(p.code[n], PrecallOp(argc))
    ensures On(p, n + 1, st) && Meets(p, n, None)
    ensures ArgOrZero(p.code[n + 1]) == argc
  {
    assert PrecallValid(p.code, n);
    hide Analysed, On, Meets, WellShaped;
    OpStep(p, n, PrecallOp(argc), st + vs);
    SpecialShapes(p.code[n]);
    assert Popped(st + vs, argc) == st;
    assert Applied(st + vs, p.code[n]) == st;
  }

  /** The CALL itself: its two protocol values and the context its PRECALL recorded. */
  lemma CallStep(p: Program, n: nat, s: CallSite, st: Stack, v: StackValue, w: StackValue) returns (result: StackValue)
    requires s.Counted?
    requires Analysed(p) && On(p, n, st + [v, w]) && 2 <= n && n + 1 < |p.code|
    requires IsOp(p.code[n], CALL_OP) && ArgOrZero(p.code[n]) == s.argc
    requires p.code[n - 1].name.Precall?
    requires if s.names == [] then !p.code[n - 2].name.KwNames?
             else p.code[n - 2].name.KwNames? && p.code[n - 2].argval == Names(s.names)
    requires Announces(s.mode, v, w)
    ensures On(p, n + 1, st + [result]) && Meets(p, n, Some(s)) && Ordinary(result)
  {
    result := StackValue(PlainValue, Some(p.code[n].offset));
    CallMetadata(p, n, s, st, v, w);
    hide Analysed, On, Meets, WellShaped;
    OpStep(p, n, CALL_OP, st + [v, w]);
    assert Popped(st + [v, w], 2) == st;
    assert Repeat(result, 1) == [result];
    assert Applied(st + [v, w], p.code[n]) == st + [result];
  }

  lemma CallMetadata(p: Program, n: nat, s: CallSite, st: Stack, v: StackValue, w: StackValue)
    requires s.Counted?
    requires Increasing(p.code) && On(p, n, st + [v, w]) && 2 <= n < |p.code|
    requires IsOp(p.code[n], CALL_OP) && ArgOrZero(p.code[n]) == s.argc
    requires p.code[n - 1].name.Precall?
    requires if s.names == [] then !p.code[n - 2].name.KwNames?
             else p.code[n - 2].name.KwNames? && p.code[n - 2].argval == Names(s.names)
    requires Announces(s.mode, v, w)
    ensures Meets(p, n, Some(s))
  {
    hide Contexts, Increasing, StackBefore, WellShaped;
    ContextRecorded(p.code, |p.code|, n - 1);
  }

  /** An unpacked call reads its two protocol values below the containers. */
  lemma UnpackedStep(p: Program, n: nat, s: CallSite, st: Stack, v: StackValue, w: StackValue, vs: Stack)
    returns (result: StackValue)
    requires s.Unpacked? && |vs| == if s.hasKwargs then 2 else 1
    requires Analysed(p) && On(p, n, st + [v, w] + vs) && n + 1 < |p.code|
    requires IsOp(p.code[n], UnpackedOp(|vs|))
    requires Announces(s.mode, v, w)
    ensures On(p, n + 1, st + [result]) && Meets(p, n, Some(s)) && Ordinary(result)
  {
    result := StackValue(PlainValue, Some(p.code[n].offset));
    UnpackedMetadata(p, n, s, st, v, w, vs);
    hide Analysed, On, Meets, WellShaped;
    OpStep(p, n, UnpackedOp(|vs|), st + [v, w] + vs);
    assert Popped(st + [v, w] + vs, |vs| + 2) == st;
    assert Repeat(result, 1) == [result];
    assert Applied(st + [v, w] + vs, p.code[n]) == st + [result];
  }

  lemma UnpackedMetadata(p: Program, n: nat, s: CallSite, st: Stack, v: StackValue, w: StackValue, vs: Stack)
    requires s.Unpacked? && |vs| == if s.hasKwargs then 2 else 1
    requires On(p, n, st + [v, w] + vs) && IsOp(p.code[n], UnpackedOp(|vs|))
    requires Announces(s.mode, v, w)
    ensures Meets(p, n, Some(s))
  {
    hide StackBefore, WellShaped, Contexts;
    SpecialShapes(p.code[n]);
    var stack := st + [v, w] + vs;
    assert stack[|st|] == v && stack[|st| + 1] == w;
  }

  // ---------- whole expressions ----------

  lemma OneMeets(p: Program, n: nat, site: Option<CallSite>)
    requires n < |p.code| && Meets(p, n, site)
    ensures AllMeet(p, n, [site])
  {
  }

  lemma OneEmitted(code: seq<NormalizedInstruction>, n: nat, op: Op)
    requires Emits(code, n, [op])
    ensures n < |code| && IsOp(code[n], op)
  {
    assert IsOp(code[n + 0], [op][0]);
  }

  lemma CodeOfTree(t: Tree)
    ensures match t
            case Operation(ops, ts) => Code(t) == CodeAll(ts) + ops && Sites(t) == SitesAll(ts) + NoSites(|ops|)
            case Prefixed(op, u) => Code(t) == [op] + Code(u) && Sites(t) == [None] + Sites(u)
            case Invoke(callee, args, names) =>
              && Code(t) == CalleeCode(callee) + CodeAll(args) + CallTail(|args|, names)
              && Sites(t) == CalleeSites(callee) + SitesAll(args) + TailSites(|args|, names, ModeOf(callee))
            case InvokeUnpacked(callee, containers) =>
              && Code(t) == CalleeCode(callee) + CodeAll(containers) + [UnpackedOp(|containers|)]
              && Sites(t) == CalleeSites(callee) + SitesAll(containers)
                             + [Some(Unpacked(|containers| == 2, ModeOf(callee)))]
  {
  }

  lemma CodeOfMore(ts: seq<Tree>)
    requires ts != []
    ensures CodeAll(ts) == CodeAll(ts[..|ts| - 1]) + Code(ts[|ts| - 1])
    ensures SitesAll(ts) == SitesAll(ts[..|ts| - 1]) + Sites(ts[|ts| - 1])
  {
  }

  lemma CodeOfCallee(c: Callee)
    ensures c.GlobalCallee? ==> CalleeCode(c) == [GLOBAL_OP] && CalleeSites(c) == [None]
    ensures c.NullCallee? ==>
              CalleeCode(c) == [NULL_OP] + Code(c.callable) && CalleeSites(c) == [None] + Sites(c.callable)
    ensures c.MethodCallee? ==>
              CalleeCode(c) == Code(c.receiver) + [METHOD_OP] && CalleeSites(c) == Sites(c.receiver) + [None]
    ensures c.PairCallee? ==>
              CalleeCode(c) == Code(c.made) + Code(c.given) && CalleeSites(c) == Sites(c.made) + Sites(c.given)
  {
  }

  /** Running the code of an expression pushes one value, and all its calls get their own metadata. */
  lemma {:induction false} TreeRuns(p: Program, a: nat, t: Tree, st: Stack) returns (v: StackValue)
    requires Analysed(p) && Valid(t) && Emits(p.code, a, Code(t)) && a + |Code(t)| < |p.code|
    requires On(p, a, st)
    ensures On(p, a + |Code(t)|, st + [v]) && Ordinary(v)
    ensures AllMeet(p, a, Sites(t))
    decreases t, 1
  {
    CodeOfTree(t);
    hide Analysed, On, Meets, Emits, AllMeet, CallTail, TailSites, IsOp, Reduces, Idle;
    hide Code, CodeAll, CalleeCode, Sites, SitesAll, CalleeSites;
    match t
    case Operation(ops, ts) =>
      EmitsSplit(p.code, a, CodeAll(ts), ops);
      var vs := TreesRun(p, a, ts, st);
      v := OpsRun(p, a + |CodeAll(ts)|, ops, st, vs);
      AllMeetJoin(p, a, SitesAll(ts), NoSites(|ops|));
    case Prefixed(op, u) =>
      EmitsSplit(p.code, a, [op], Code(u));
      OneEmitted(p.code, a, op);
      IdleStep(p, a, op, st);
      v := TreeRuns(p, a + 1, u, st);
      OneMeets(p, a, None);
      AllMeetJoin(p, a, [None], Sites(u));
    case Invoke(_, _, _) =>
      v := InvokeRuns(p, a, t, st);
    case InvokeUnpacked(_, _) =>
      v := UnpackedRuns(p, a, t, st);
  }

  /** The code before a call's tail does not end in keyword names of its own. */
  lemma NoNamesBefore(c: Callee, ts: seq<Tree>)
    requires ValidCallee(c) && forall x :: x in ts ==> Valid(x)
    ensures var before := CalleeCode(c) + CodeAll(ts);
            before != [] && !before[|before| - 1].name.KwNames?
  {
    hide CalleeCode, CodeAll, Valid, ValidCallee;
    var first, second := CalleeCode(c), CodeAll(ts);
    var before := first + second;
    assert before[|before| - 1] == if second == [] then first[|first| - 1] else second[|second| - 1];
  }

  lemma {:induction false} InvokeRuns(p: Program, a: nat, t: Tree, st: Stack) returns (v: StackValue)
    requires t.Invoke? && Analysed(p) && Valid(t) && Emits(p.code, a, Code(t)) && a + |Code(t)| < |p.code|
    requires On(p, a, st)
    ensures On(p, a + |Code(t)|, st + [v]) && Ordinary(v)
    ensures AllMeet(p, a, Sites(t))
    decreases t, 0
  {
    CodeOfTree(t);
    hide Analysed, On, Meets, Emits, AllMeet, CallTail, TailSites, IsOp, ValidCallee;
    hide Code, CodeAll, CalleeCode, Sites, SitesAll, CalleeSites;
    var c, e, tail := CalleeCode(t.callee), CodeAll(t.args), CallTail(|t.args|, t.names);
    var site := Counted(|t.args|, t.names, ModeOf(t.callee));
    var before := c + e;
    NoNamesBefore(t.callee, t.args);
    EmitsSplit(p.code, a, c + e, tail);
    EmitsSplit(p.code, a, c, e);
    var first, second := CalleeRuns(p, a, t.callee, st);
    var vs := TreesRun(p, a + |c|, t.args, st + [first, second]);
    LastEmitted(p.code, a, before);
    v := TailRuns(p, a + |before|, site, st, first, second, vs);
    AllMeetJoin(p, a, CalleeSites(t.callee), SitesAll(t.args));
    AllMeetJoin(p, a, CalleeSites(t.callee) + SitesAll(t.args), TailSites(site.argc, site.names, site.mode));
  }

  lemma {:induction false} UnpackedRuns(p: Program, a: nat, t: Tree, st: Stack) returns (v: StackValue)
    requires t.InvokeUnpacked? && Analysed(p) && Valid(t) && Emits(p.code, a, Code(t)) && a + |Code(t)| < |p.code|
    requires On(p, a, st)
    ensures On(p, a + |Code(t)|, st + [v]) && Ordinary(v)
    ensures AllMeet(p, a, Sites(t))
    decreases t, 0
  {
    CodeOfTree(t);
    hide Analysed, On, Meets, Emits, AllMeet, IsOp, ValidCallee;
    hide Code, CodeAll, CalleeCode, Sites, SitesAll, CalleeSites;
    var c, e, call := CalleeCode(t.callee), CodeAll(t.containers), UnpackedOp(|t.containers|);
    var site := Unpacked(|t.containers| == 2, ModeOf(t.callee));
    EmitsSplit(p.code, a, c + e, [call]);
    EmitsSplit(p.code, a, c, e);
    OneEmitted(p.code, a + |c| + |e|, call);
    var first, second := CalleeRuns(p, a, t.callee, st);
    var vs := TreesRun(p, a + |c|, t.containers, st + [first, second]);
    v := UnpackedStep(p, a + |c| + |e|, site, st, first, second, vs);
    OneMeets(p, a + |c| + |e|, Some(site));
    AllMeetJoin(p, a, CalleeSites(t.callee), SitesAll(t.containers));
    AllMeetJoin(p, a, CalleeSites(t.callee) + SitesAll(t.containers), [Some(site)]);
  }

  lemma {:induction false} TreesRun(p: Program, a: nat, ts: seq<Tree>, st: Stack) returns (vs: Stack)
    requires Analysed(p) && (forall x :: x in ts ==> Valid(x))
    requires Emits(p.code, a, CodeAll(ts)) && a + |CodeAll(ts)| < |p.code|
    requires On(p, a, st)
    ensures |vs| == |ts| && On(p, a + |CodeAll(ts)|, st + vs) && AllOrdinary(vs)
    ensures AllMeet(p, a, SitesAll(ts))
    decreases ts, 0
  {
    hide Analysed, On, Meets, Emits, AllMeet, IsOp, Valid, ValidCallee;
    hide Code, CodeAll, CalleeCode, Sites, SitesAll, CalleeSites;
    if ts == [] {
      vs := [];
      assert st + vs == st;
      CodeOfNone(p, a, ts);
    } else {
      CodeOfMore(ts);
      var front, last := ts[..|ts| - 1], ts[|ts| - 1];
      EmitsSplit(p.code, a, CodeAll(front), Code(last));
      var us := TreesRun(p, a, front, st);
      var u := TreeRuns(p, a + |CodeAll(front)|, last, st + us);
      vs := us + [u];
      assert st + us + [u] == st + vs;
      AllMeetJoin(p, a, SitesAll(front), Sites(last));
    }
  }

  lemma CodeOfNone(p: Program, a: nat, ts: seq<Tree>)
    requires ts == [] && a <= |p.code|
    ensures |CodeAll(ts)| == 0 && AllMeet(p, a, SitesAll(ts))
  {
  }

  /** The callee leaves the two protocol values of its call form. */
  lemma {:induction false} CalleeRuns(p: Program, a: nat, c: Callee, st: Stack) returns (v: StackValue, w: StackValue)
    requires Analysed(p) && ValidCallee(c) && Emits(p.code, a, CalleeCode(c)) && a + |CalleeCode(c)| < |p.code|
    requires On(p, a, st)
    ensures On(p, a + |CalleeCode(c)|, st + [v, w])
    ensures Announces(ModeOf(c), v, w)
    ensures AllMeet(p, a, CalleeSites(c))
    decreases c, 0
  {
    CodeOfCallee(c);
    hide Analysed, On, Meets, Emits, AllMeet, IsOp, Code, CodeAll, CalleeCode, Sites, SitesAll, CalleeSites;
    match c
    case GlobalCallee =>
      OneEmitted(p.code, a, GLOBAL_OP);
      v, w := NullGlobalStep(p, a, st);
      OneMeets(p, a, None);
    case NullCallee(f) =>
      EmitsSplit(p.code, a, [NULL_OP], Code(f));
      OneEmitted(p.code, a, NULL_OP);
      v := NullStep(p, a, st);
      OneMeets(p, a, None);
      w := TreeRuns(p, a + 1, f, st + [v]);
      assert st + [v] + [w] == st + [v, w];
      AllMeetJoin(p, a, [None], Sites(f));
    case MethodCallee(r) =>
      EmitsSplit(p.code, a, Code(r), [METHOD_OP]);
      OneEmitted(p.code, a + |Code(r)|, METHOD_OP);
      var receiver := TreeRuns(p, a, r, st);
      v, w := MethodStep(p, a + |Code(r)|, st, receiver);
      OneMeets(p, a + |Code(r)|, None);
      AllMeetJoin(p, a, Sites(r), [None]);
    case PairCallee(made, given) =>
      EmitsSplit(p.code, a, Code(made), Code(given));
      v := TreeRuns(p, a, made, st);
      w := TreeRuns(p, a + |Code(made)|, given, st + [v]);
      assert st + [v] + [w] == st + [v, w];
      AllMeetJoin(p, a, Sites(made), Sites(given));
  }

  lemma LastEmitted(code: seq<NormalizedInstruction>, a: nat, ops: seq<Op>)
    requires Emits(code, a, ops) && ops != []
    ensures code[a + |ops| - 1].name == ops[|ops| - 1].name
  {
    assert IsOp(code[a + (|ops| - 1)], ops[|ops| - 1]);
  }

  /** PRECALL and CALL after the arguments and any keyword names. */
  lemma PairRuns(p: Program, n: nat, s: CallSite, st: Stack, v: StackValue, w: StackValue, vs: Stack)
    returns (result: StackValue)
    requires s.Counted?
    requires Analysed(p) && Emits(p.code, n, [PrecallOp(s.argc)] + [CALL_OP]) && 1 <= n && n + 2 < |p.code|
    requires On(p, n, st + [v, w] + vs) && |vs| == s.argc
    requires Announces(s.mode, v, w)
    requires if s.names == [] then !p.code[n - 1].name.KwNames?
             else p.code[n - 1].name.KwNames? && p.code[n - 1].argval == Names(s.names)
    ensures On(p, n + 2, st + [result]) && Ordinary(result)
    ensures AllMeet(p, n, [None] + [Some(s)])
  {
    hide Analysed, On, Meets, Emits, AllMeet, WellShaped;
    EmitsSplit(p.code, n, [PrecallOp(s.argc)], [CALL_OP]);
    OneEmitted(p.code, n, PrecallOp(s.argc));
    OneEmitted(p.code, n + 1, CALL_OP);
    PrecallStep(p, n, s.argc, st + [v, w], vs);
    result := CallStep(p, n + 1, s, st, v, w);
    OneMeets(p, n, None);
    OneMeets(p, n + 1, Some(s));
    AllMeetJoin(p, n, [None], [Some(s)]);
  }

  lemma TailParts(s: CallSite)
    requires s.Counted?
    ensures var pair := [PrecallOp(s.argc)] + [CALL_OP];
            CallTail(s.argc, s.names) == if s.names == [] then pair else [NamesOp(s.names)] + pair
    ensures |CallTail(s.argc, s.names)| == if s.names == [] then 2 else 3
    ensures var pair := [None] + [Some(s)];
            TailSites(s.argc, s.names, s.mode) == if s.names == [] then pair else [None] + pair
  {
  }

  lemma NamesCarried(i: NormalizedInstruction, names: seq<string>)
    requires IsOp(i, NamesOp(names))
    ensures i.name.KwNames? && i.argval == Names(names)
  {
    hide WellShaped;
  }

  lemma TailRuns(p: Program, n: nat, s: CallSite, st: Stack, v: StackValue, w: StackValue, vs: Stack)
    returns (result: StackValue)
    requires s.Counted?
    requires Analysed(p) && Emits(p.code, n, CallTail(s.argc, s.names)) && n + |CallTail(s.argc, s.names)| < |p.code|
    requires On(p, n, st + [v, w] + vs) && |vs| == s.argc
    requires Announces(s.mode, v, w)
    requires 1 <= n && !p.code[n - 1].name.KwNames?
    ensures On(p, n + |CallTail(s.argc, s.names)|, st + [result]) && Ordinary(result)
    ensures AllMeet(p, n, TailSites(s.argc, s.names, s.mode))
  {
    hide Analysed, On, Meets, Emits, AllMeet, IsOp, CallTail, TailSites;
    hide PrecallOp, NamesOp, CALL_OP;
    TailParts(s);
    if s.names == [] {
      result := PairRuns(p, n, s, st, v, w, vs);
    } else {
      result := NamedRuns(p, n, s, st, v, w, vs);
    }
  }

  /** The tail of a call with keyword names. */
  lemma NamedRuns(p: Program, n: nat, s: CallSite, st: Stack, v: StackValue, w: StackValue, vs: Stack)
    returns (result: StackValue)
    requires s.Counted? && s.names != [] && Analysed(p) && n + 3 < |p.code|
    requires Emits(p.code, n, [NamesOp(s.names)] + ([PrecallOp(s.argc)] + [CALL_OP]))
    requires On(p, n, st + [v, w] + vs) && |vs| == s.argc
    requires Announces(s.mode, v, w)
    ensures On(p, n + 3, st + [result]) && Ordinary(result)
    ensures AllMeet(p, n, [None] + ([None] + [Some(s)]))
  {
    hide Analysed, On, Meets, Emits, AllMeet, IsOp;
    EmitsSplit(p.code, n, [NamesOp(s.names)], [PrecallOp(s.argc)] + [CALL_OP]);
    OneEmitted(p.code, n, NamesOp(s.names));
    NamesCarried(p.code[n], s.names);
    NamesStep(p, n, s.names, st + [v, w] + vs);
    OneMeets(p, n, None);
    result := PairRuns(p, n + 1, s, st, v, w, vs);
    AllMeetJoin(p, n, [None], [None] + [Some(s)]);
  }

  /**
   Wherever the code of a nested call expression appears at an analysed place, every CALL in it
   is described by its own call node, and nothing else is described as a call.
   */
  lemma CallsGetOwnMetadata(p: Program, a: nat, t: Tree) returns (v: StackValue)
    requires Analysed(p) && Valid(t) && Emits(p.code, a, Code(t)) && a + |Code(t)| < |p.code|
    requires p.code[a].offset in p.depths
    ensures AllMeet(p, a, Sites(t))
    ensures On(p, a + |Code(t)|, StackBefore(p.code, p.depths, a) + [v])
    ensures p.depths[p.code[a + |Code(t)|].offset] == p.depths[p.code[a].offset] + 1
  {
    hide Reachable, CallsValid, Consistent, Code, CodeAll, CalleeCode, Sites, SitesAll, CalleeSites, AllMeet, RawStack;
    hide Increasing, WellShaped;
    assert IsOp(p.code[a + 0], Code(t)[0]);
    SpecialShapes(p.code[a]);
    OperandsThere(p.code, p.handlers, p.depths, a);
    StackBeforeLength(p.code, p.depths, a);
    v := TreeRuns(p, a, t, StackBefore(p.code, p.depths, a));
  }
}
