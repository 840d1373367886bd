/** Call protocol recovery: stack shapes, PRECALL/CALL validation and the symbolic stack pass. */
module Normalizers {
  import opened Options
  import opened ExceptionTables
  import opened Opcodes
  import opened StackAnalyses
  import UnpackTargets

  // ---------- stack shapes ----------

  /** The external stack-effect table's answer for one opcode. */
  datatype TableEffect = Unknown | Known(effect: int, pop: int, push: int)

  function Max(a: int, b: int): (m: int)
    ensures a <= m && b <= m && (m == a || m == b)
  {
    if a > b then a else b
  }

  function LowBits(n: nat): nat {
    n % 2 + n / 2 % 2 + n / 4 % 2 + n / 8 % 2
  }

  function Popping(pop: int, push: int): Shape {
    Shape(pop, push, push - pop, None, pop)
  }

  function StackShape(name: Kind, operand: Option<nat>, table: TableEffect): Option<Shape> {
    var arg := if operand.Some? then operand.value else 0;
    match name
    case Precall => Some(Shape(arg, 0, -arg, None, arg + 2))
    case SetupAnnotations => Some(Popping(0, 0))
    case Call => Some(Popping(2, 1))
    case CallFunctionEx => Some(Popping(3 + arg % 2, 1))
    case MakeFunction => Some(Popping(1 + LowBits(arg), 1))
    case LoadGlobal => Some(Popping(0, if arg % 2 == 1 then 2 else 1))
    case LoadMethod => Some(Popping(1, 2))
    case BuildTuple => Some(Popping(arg, 1))
    case BuildSequence(_) => Some(Popping(arg, 1))
    case BuildMap => Some(Popping(arg * 2, 1))
    case BuildConstKeyMap => Some(Popping(arg + 1, 1))
    case UnpackSequence => Some(Popping(1, arg))
    case UnpackEx => Some(Popping(1, arg % 256 + arg / 256 + 1))
    case BuildSlice => Some(Popping(if arg == 3 then 3 else 2, 1))
    case FormatValue => Some(Popping(if arg / 4 % 2 == 1 then 2 else 1, 1))
    case RaiseVarargs => Some(Popping(arg, 0))
    case CollectionAdd(_) => Some(Shape(1, 0, -1, None, Max(arg, 1)))
    case DictMerge(_) => Some(Shape(1, 0, -1, None, Max(arg, 1)))
    case MapAdd => Some(Shape(2, 0, -2, None, Max(arg + 1, 2)))
    case Copy => Some(Shape(0, 1, 1, None, Max(arg, 1)))
    case Swap => Some(Shape(0, 0, 0, None, Max(arg, 1)))
    case JumpIfOrPop(_) => Some(Shape(1, 0, -1, Some(0), 1))
    case ForIter => Some(Shape(0, 1, 1, Some(-1), 1))
    case Send => Some(Shape(0, 0, 0, Some(-1), 2))
    case PopJump(_, _) => Some(Shape(1, 0, -1, Some(-1), 1))
    case JumpForward => Some(Shape(0, 0, 0, Some(0), 0))
    case JumpBackward => Some(Shape(0, 0, 0, Some(0), 0))
    case JumpBackwardNoInterrupt => Some(Shape(0, 0, 0, Some(0), 0))
    case BeforeWith(_) => Some(Popping(1, 2))
    case _ => TableShape(table)
  }

  /** The table's pops and pushes when they agree with its effect, the least ones otherwise. */
  function TableShape(table: TableEffect): Option<Shape> {
    match table
    case Unknown => None
    case Known(effect, pop, push) =>
      if pop < 0 || push < 0 || push - pop != effect then
        Some(Shape(Max(-effect, 0), Max(effect, 0), effect, None, Max(-effect, 0)))
      else
        Some(Shape(pop, push, effect, None, pop))
  }

  /** Every shape balances, and demands at least what it pops. */
  lemma ShapesBalance(name: Kind, operand: Option<nat>, table: TableEffect)
    requires StackShape(name, operand, table).Some?
    ensures var s := StackShape(name, operand, table).value;
            s.push - s.pop == s.effect && 0 <= s.pop <= s.required && 0 <= s.push
  {
  }

  /** Bit b of a flag operand. */
  function Flag(arg: nat, b: nat): nat
    requires b > 0
  {
    arg / b % 2
  }

  /** What jumps do on falling through and on jumping, and how many operands they look at. */
  lemma JumpShapes(name: Kind, operand: Option<nat>, table: TableEffect)
    ensures name.ForIter? ==> StackShape(name, operand, table) == Some(Shape(0, 1, 1, Some(-1), 1))
    ensures name.Send? ==> StackShape(name, operand, table) == Some(Shape(0, 0, 0, Some(-1), 2))
    ensures name.PopJump? ==> StackShape(name, operand, table) == Some(Shape(1, 0, -1, Some(-1), 1))
    ensures name.JumpIfOrPop? ==> StackShape(name, operand, table) == Some(Shape(1, 0, -1, Some(0), 1))
    ensures name.JumpForward? || name.JumpBackward? || name.JumpBackwardNoInterrupt? ==>
              StackShape(name, operand, table) == Some(Shape(0, 0, 0, Some(0), 0))
  {
  }

  /** How many values calls, loads and container builds take, and how many they leave. */
  lemma BuildShapes(name: Kind, arg: nat, table: TableEffect)
    requires StackShape(name, Some(arg), table).Some?
    ensures var s := StackShape(name, Some(arg), table).value;
            && (name.Call? ==> s.pop == 2 && s.push == 1)
            && (name.Precall? ==> s.pop == arg && s.push == 0 && s.required == arg + 2)
            && (name.CallFunctionEx? ==> s.pop == 3 + Flag(arg, 1) && s.push == 1)
            && (name.MakeFunction? ==>
                  s.pop == 1 + Flag(arg, 1) + Flag(arg, 2) + Flag(arg, 4) + Flag(arg, 8) && s.push == 1)
            && (name.LoadGlobal? ==> s.pop == 0 && s.push == 1 + Flag(arg, 1))
            && (name.LoadMethod? ==> s.pop == 1 && s.push == 2)
            && (name.BuildTuple? || name.BuildSequence? ==> s.pop == arg && s.push == 1)
            && (name.BuildMap? ==> s.pop == 2 * arg && s.push == 1)
            && (name.BuildConstKeyMap? ==> s.pop == arg + 1 && s.push == 1)
  {
  }

  /** The same for the other instructions whose operand matters, with how deep they look. */
  lemma OperandShapes(name: Kind, arg: nat, table: TableEffect)
    requires StackShape(name, Some(arg), table).Some?
    ensures var s := StackShape(name, Some(arg), table).value;
            && (name.BuildSlice? ==> s.pop == (if arg == 3 then 3 else 2) && s.push == 1)
            && (name.FormatValue? ==> s.pop == 1 + Flag(arg, 4) && s.push == 1)
            && (name.RaiseVarargs? ==> s.pop == arg && s.push == 0)
            && (name.CollectionAdd? || name.DictMerge? ==> s.pop == 1 && s.push == 0 && s.required == Max(arg, 1))
            && (name.MapAdd? ==> s.pop == 2 && s.push == 0 && s.required == Max(arg + 1, 2))
            && (name.Copy? ==> s.pop == 0 && s.push == 1 && s.required == Max(arg, 1))
            && (name.Swap? ==> s.pop == 0 && s.push == 0 && s.required == Max(arg, 1))
            && (name.BeforeWith? ==> s.pop == 1 && s.push == 2)
            && (name.SetupAnnotations? ==> s.pop == 0 && s.push == 0)
  {
  }

  /** UNPACK_EX leaves as many values as the target parser reads targets. */
  lemma UnpackShape(arg: nat, table: TableEffect)
    ensures StackShape(UnpackEx, Some(arg), table)
            == Some(Popping(1, UnpackTargets.Count(UnpackTargets.UnpackEx(arg))))
    ensures StackShape(UnpackSequence, Some(arg), table)
            == Some(Popping(1, UnpackTargets.Count(UnpackTargets.UnpackSequence(arg))))
  {
  }

  // ---------- the symbolic stack ----------

  datatype ValueKind =
    | NullValue
    | ConstValue
    | ClosureValue
    | PlainValue
    | MethodValue
    | SelfOrNull
    | TupleValue
    | DictValue
    | UnknownValue

  datatype StackValue = StackValue(kind: ValueKind, origin: Option<int>)

  type Stack = seq<StackValue>

  /** Dropping `count` values, as if unknown ones lay below. */
  function Popped(stack: Stack, count: int): Stack {
    if count <= 0 then stack
    else if |stack| < count then []
    else stack[..|stack| - count]
  }

  function Repeat(v: StackValue, n: int): (r: Stack)
    ensures |r| == if n < 0 then 0 else n
    decreases n
  {
    if n <= 0 then [] else [v] + Repeat(v, n - 1)
  }

  /** The top value and the one at a depth, exchanged. */
  function Swapped(stack: Stack, depth: nat): (r: Stack)
    requires 0 < depth <= |stack|
    ensures |r| == |stack|
  {
    stack[|stack| - 1 := stack[|stack| - depth]][|stack| - depth := stack[|stack| - 1]]
  }

  /** What one instruction does to the symbolic stack. */
  function Applied(stack: Stack, i: NormalizedInstruction): Stack {
    var arg := if i.arg.Some? then i.arg.value else 0;
    var here := Some(i.offset);
    match i.name
    case PushNull => stack + [StackValue(NullValue, here)]
    case LoadConst => stack + [StackValue(ConstValue, here)]
    case LoadClosure => stack + [StackValue(ClosureValue, here)]
    case LoadGlobal =>
      stack + (if arg % 2 == 1 then [StackValue(NullValue, here)] else []) + [StackValue(PlainValue, here)]
    case LoadMethod => Popped(stack, 1) + [StackValue(MethodValue, here), StackValue(SelfOrNull, here)]
    case BuildTuple => Popped(stack, arg) + [StackValue(TupleValue, here)]
    case BuildConstKeyMap => Popped(Popped(stack, 1), arg) + [StackValue(DictValue, here)]
    case BuildMap => Popped(stack, arg * 2) + [StackValue(DictValue, here)]
    case Copy =>
      if 0 < arg <= |stack| then stack + [stack[|stack| - arg]] else stack + [StackValue(UnknownValue, here)]
    case Swap =>
      if 0 < arg <= |stack| then Swapped(stack, arg) else stack
    case _ => Popped(stack, i.shape.pop) + Repeat(StackValue(PlainValue, here), i.shape.push)
  }

  /** The shape is the tabulated one, and plain pushes push one value. */
  ghost predicate WellShaped(i: NormalizedInstruction) {
    && (exists table :: StackShape(i.name, i.arg, table) == Some(i.shape))
    && (i.name.PushNull? || i.name.LoadConst? || i.name.LoadClosure? ==> i.shape.effect == 1)
  }

  /** The shape of the instructions whose symbolic effect does not read it. */
  lemma SpecialShapes(i: NormalizedInstruction)
    requires WellShaped(i)
    ensures i.shape.push - i.shape.pop == i.shape.effect && 0 <= i.shape.pop <= i.shape.required && 0 <= i.shape.push
    ensures var arg := if i.arg.Some? then i.arg.value else 0;
            && (i.name.LoadGlobal? ==> i.shape == Popping(0, if arg % 2 == 1 then 2 else 1))
            && (i.name.LoadMethod? ==> i.shape == Popping(1, 2))
            && (i.name.BuildTuple? ==> i.shape == Popping(arg, 1))
            && (i.name.BuildConstKeyMap? ==> i.shape == Popping(arg + 1, 1))
            && (i.name.BuildMap? ==> i.shape == Popping(arg * 2, 1))
            && (i.name.Copy? ==> i.shape.effect == 1 && arg <= i.shape.required)
            && (i.name.Swap? ==> i.shape.effect == 0 && arg <= i.shape.required)
            && (i.name.Precall? ==> i.shape == Shape(arg, 0, -arg, None, arg + 2))
            && (i.name.CallFunctionEx? ==> i.shape == Popping(3 + arg % 2, 1))
  {
    var table :| StackShape(i.name, i.arg, table) == Some(i.shape);
    ShapesBalance(i.name, i.arg, table);
  }

  /** With enough operands the symbolic stack changes length by exactly the stack effect. */
  lemma AppliedLength(stack: Stack, i: NormalizedInstruction)
    requires WellShaped(i) && |stack| >= i.shape.required
    ensures |Applied(stack, i)| == |stack| + i.shape.effect
  {
    SpecialShapes(i);
    hide StackShape;
    match i.name
    case BuildConstKeyMap => assert |Popped(stack, 1)| == |stack| - 1;
    case _ =>
  }

  /** An instruction that finds its operands on top of the stack leaves everything below them alone. */
  lemma AppliedLocal(below: Stack, top: Stack, i: NormalizedInstruction)
    requires WellShaped(i) && |top| >= i.shape.required
    ensures Applied(below + top, i) == below + Applied(top, i)
  {
    SpecialShapes(i);
    hide StackShape, WellShaped, Popped, Swapped;
    var arg := if i.arg.Some? then i.arg.value else 0;
    if i.name.Copy? {
      assert 0 < arg ==> (below + top)[|below + top| - arg] == top[|top| - arg];
    } else if i.name.Swap? {
      if arg > 0 {
        SwappedLocal(below, top, arg);
      }
    } else if i.name.BuildConstKeyMap? {
      PoppedLocal(below, top, 1);
      PoppedLocal(below, Popped(top, 1), arg);
    } else {
      PoppingLocal(below, top, i, arg);
    }
  }

  /** The instructions that pop once and then push. */
  lemma PoppingLocal(below: Stack, top: Stack, i: NormalizedInstruction, arg: nat)
    requires !i.name.Copy? && !i.name.Swap? && !i.name.BuildConstKeyMap?
    requires arg == if i.arg.Some? then i.arg.value else 0
    requires i.shape.pop <= |top|
    requires i.name.LoadMethod? ==> 1 <= |top|
    requires i.name.BuildTuple? ==> arg <= |top|
    requires i.name.BuildMap? ==> arg * 2 <= |top|
    ensures Applied(below + top, i) == below + Applied(top, i)
  {
    hide Popped;
    var count := match i.name
      case LoadMethod => 1
      case BuildTuple => arg
      case BuildMap => arg * 2
      case _ => i.shape.pop;
    PoppedLocal(below, top, count);
  }

  lemma SwappedLocal(below: Stack, top: Stack, depth: nat)
    requires 0 < depth <= |top|
    ensures Swapped(below + top, depth) == below + Swapped(top, depth)
  {
  }

  lemma PoppedLocal(below: Stack, top: Stack, count: int)
    requires count <= |top|
    ensures Popped(below + top, count) == below + Popped(top, count)
  {
  }

  /** On a depth mismatch the pass starts over with unknown values; unreachable code has no stack. */
  function Resynchronised(stack: Stack, depths: map<int, int>, offset: int): Stack {
    if offset !in depths then []
    else if |stack| != depths[offset] then Repeat(StackValue(UnknownValue, Some(offset)), depths[offset])
    else stack
  }

  /** The stack before instruction n, before any resynchronisation there. */
  ghost function RawStack(code: seq<NormalizedInstruction>, depths: map<int, int>, n: nat): Stack
    requires n <= |code|
    decreases n, 0
  {
    if n == 0 then [] else Applied(StackBefore(code, depths, n - 1), code[n - 1])
  }

  /** The stack instruction n is interpreted on. */
  ghost function StackBefore(code: seq<NormalizedInstruction>, depths: map<int, int>, n: nat): Stack
    requires n < |code|
    decreases n, 1
  {
    Resynchronised(RawStack(code, depths, n), depths, code[n].offset)
  }

  predicate FallsThrough(i: NormalizedInstruction) {
    !EndsFlow(i.name) && (i.target.Some? ==> !UnconditionalJump(i.name))
  }

  lemma FallNormal(i: NormalizedInstruction, following: int, depth: int)
    requires FallsThrough(i)
    ensures Config(following, depth + i.shape.effect) in NormalMoves(i, Some(following), depth)
  {
    var moves := NormalMoves(i, Some(following), depth);
    assert moves[|moves| - 1] == Config(following, depth + i.shape.effect);
  }

  /** Falling through is a move. */
  lemma FallMove(code: seq<NormalizedInstruction>, handlers: seq<Region>, i: nat, depth: int)
    requires Increasing(code) && i + 1 < |code| && FallsThrough(code[i])
    ensures Config(code[i + 1].offset, depth + code[i].shape.effect)
            in Moves(code, handlers, Config(code[i].offset, depth))
  {
    hide ByOffset, NextOffset, HandlerMoves, NormalMoves, FallsThrough, Increasing;
    TablesOf(code, i);
    FallNormal(code[i], code[i + 1].offset, depth);
    assert Moves(code, handlers, Config(code[i].offset, depth))
           == NormalMoves(code[i], Some(code[i + 1].offset), depth) + HandlerMoves(handlers, code[i].offset);
  }

  /** The analysed depth after a fall-through is the depth before plus the stack effect. */
  lemma FallDepth(code: seq<NormalizedInstruction>, handlers: seq<Region>, depths: map<int, int>, i: nat)
    requires Increasing(code) && i + 1 < |code| && FallsThrough(code[i])
    requires forall c :: Reachable(code, handlers, c) <==> Records(depths, c)
    requires code[i].offset in depths
    ensures code[i + 1].offset in depths
    ensures depths[code[i + 1].offset] == depths[code[i].offset] + code[i].shape.effect
  {
    hide Reachable, Moves, Increasing, FallsThrough;
    var c := Config(code[i].offset, depths[code[i].offset]);
    var d := Config(code[i + 1].offset, c.depth + code[i].shape.effect);
    assert Records(depths, c);
    FallMove(code, handlers, i, c.depth);
    ReachableStep(code, handlers, c, d);
    assert Records(depths, d);
  }

  /** An analysed instruction finds the operands it requires. */
  lemma OperandsThere(code: seq<NormalizedInstruction>, handlers: seq<Region>, depths: map<int, int>, i: nat)
    requires Increasing(code) && i < |code| && Consistent(code, handlers)
    requires forall c :: Reachable(code, handlers, c) <==> Records(depths, c)
    requires code[i].offset in depths
    ensures depths[code[i].offset] >= code[i].shape.required
  {
    hide Reachable, ByOffset, NextOffset, Increasing;
    TablesOf(code, i);
    assert Records(depths, Config(code[i].offset, depths[code[i].offset]));
  }

  /**
   After a successful analysis the symbolic stack is as long as the analysed depth along every
   fall-through, so nothing is resynchronised there.
   */
  lemma NoResynchronisation(code: seq<NormalizedInstruction>, handlers: seq<Region>, depths: map<int, int>, i: nat)
    requires Increasing(code) && i + 1 < |code| && Consistent(code, handlers)
    requires forall c :: Reachable(code, handlers, c) <==> Records(depths, c)
    requires code[i].offset in depths && FallsThrough(code[i]) && WellShaped(code[i])
    requires |StackBefore(code, depths, i)| == depths[code[i].offset]
    ensures code[i + 1].offset in depths
    ensures StackBefore(code, depths, i + 1) == RawStack(code, depths, i + 1)
    ensures |StackBefore(code, depths, i + 1)| == depths[code[i + 1].offset]
  {
    hide Reachable, Consistent, WellShaped;
    FallDepth(code, handlers, depths, i);
    OperandsThere(code, handlers, depths, i);
    AppliedLength(StackBefore(code, depths, i), code[i]);
  }

  /** At every analysed instruction the symbolic stack is exactly as long as the depth. */
  lemma StackBeforeLength(code: seq<NormalizedInstruction>, depths: map<int, int>, i: nat)
    requires i < |code| && code[i].offset in depths && depths[code[i].offset] >= 0
    ensures |StackBefore(code, depths, i)| == depths[code[i].offset]
  {
  }

  /** A loop runs its body one above FOR_ITER, and goes on one below it. */
  lemma ForIterDepths(code: seq<NormalizedInstruction>, handlers: seq<Region>, depths: map<int, int>, i: nat, t: int)
    requires Increasing(code) && Consistent(code, handlers) && i + 1 < |code| && code[i].offset in depths
    requires forall c :: Reachable(code, handlers, c) <==> Records(depths, c)
    requires WellShaped(code[i]) && code[i].name.ForIter? && code[i].target == Some(t)
    ensures t in depths && depths[t] == depths[code[i].offset] - 1
    ensures code[i + 1].offset in depths && depths[code[i + 1].offset] == depths[code[i].offset] + 1
  {
    hide Reachable, Consistent, Increasing;
    var table :| StackShape(code[i].name, code[i].arg, table) == Some(code[i].shape);
    JumpShapes(code[i].name, code[i].arg, table);
    JumpDepth(code, handlers, depths, i, t);
    FallDepth(code, handlers, depths, i);
  }

  // ---------- PRECALL/CALL validation ----------

  datatype CallContext = CallContext(names: seq<string>, precallOffset: int, namesOffset: Option<int>)

  datatype NormalizationError =
    | NamesNotStrings(offset: int)
    | NamesWithoutPrecall(offset: int)
    | PrecallWithoutCall(offset: int)
    | ArgumentMismatch(offset: int)
    | TooManyNames(offset: int)
    | MissingContext(offset: int)
    | StackFailure(error: StackError)

  function ArgOrZero(i: NormalizedInstruction): nat {
    if i.arg.Some? then i.arg.value else 0
  }

  /** The keyword names a PRECALL at index i consumes, and where they were announced. */
  function ContextAt(code: seq<NormalizedInstruction>, i: nat): CallContext
    requires i < |code|
  {
    if i > 0 && code[i - 1].name.KwNames? && code[i - 1].argval.Names? then
      CallContext(code[i - 1].argval.names, code[i].offset, Some(code[i - 1].offset))
    else
      CallContext([], code[i].offset, None)
  }

  predicate NamesValid(code: seq<NormalizedInstruction>, i: nat)
    requires i < |code|
  {
    code[i].name.KwNames? ==> code[i].argval.Names? && i + 1 < |code| && code[i + 1].name.Precall?
  }

  predicate PrecallValid(code: seq<NormalizedInstruction>, i: nat)
    requires i < |code|
  {
    code[i].name.Precall? ==>
      && i + 1 < |code| && code[i + 1].name.Call? && code[i].arg == code[i + 1].arg
      && |ContextAt(code, i).names| <= ArgOrZero(code[i])
  }

  /** Keyword names precede a PRECALL, which precedes a CALL of the same arity with room for them. */
  ghost predicate CallsValid(code: seq<NormalizedInstruction>) {
    ValidBefore(code, |code|)
  }

  ghost predicate ValidBefore(code: seq<NormalizedInstruction>, n: nat)
    requires n <= |code|
  {
    forall i :: 0 <= i < n ==> NamesValid(code, i) && PrecallValid(code, i)
  }

  /**
   A KW_NAMES carries names and comes right before a PRECALL whose operand leaves room for them, and
   a PRECALL comes right before a CALL with the same operand.
   */
  lemma CallsMean(code: seq<NormalizedInstruction>)
    ensures CallsValid(code) <==>
              && (forall i :: 0 <= i < |code| && code[i].name.KwNames? ==>
                    && code[i].argval.Names? && i + 1 < |code| && code[i + 1].name.Precall?
                    && |code[i].argval.names| <= (if code[i + 1].arg.Some? then code[i + 1].arg.value else 0))
              && (forall i :: 0 <= i < |code| && code[i].name.Precall? ==>
                    i + 1 < |code| && code[i + 1].name.Call? && code[i + 1].arg == code[i].arg)
  {
    if CallsValid(code) {
      forall i | 0 <= i < |code| && code[i].name.KwNames?
        ensures && code[i].argval.Names? && i + 1 < |code| && code[i + 1].name.Precall?
                && |code[i].argval.names| <= ArgOrZero(code[i + 1])
      {
        assert NamesValid(code, i) && PrecallValid(code, i + 1);
      }
      forall i | 0 <= i < |code| && code[i].name.Precall?
        ensures i + 1 < |code| && code[i + 1].name.Call? && code[i + 1].arg == code[i].arg
      {
        assert PrecallValid(code, i);
      }
    }
  }

  /** What instruction i does wrong; the source reports the CALL when there are too many names. */
  predicate Faulty(code: seq<NormalizedInstruction>, i: nat, e: NormalizationError)
    requires i < |code|
  {
    match e
    case NamesNotStrings(o) => o == code[i].offset && code[i].name.KwNames? && !code[i].argval.Names?
    case NamesWithoutPrecall(o) =>
      o == code[i].offset && code[i].name.KwNames? && !(i + 1 < |code| && code[i + 1].name.Precall?)
    case PrecallWithoutCall(o) =>
      o == code[i].offset && code[i].name.Precall? && !(i + 1 < |code| && code[i + 1].name.Call?)
    case ArgumentMismatch(o) =>
      o == code[i].offset && code[i].name.Precall? && i + 1 < |code| && code[i].arg != code[i + 1].arg
    case TooManyNames(o) =>
      i + 1 < |code| && o == code[i + 1].offset && code[i].name.Precall? &&
          |ContextAt(code, i).names| > ArgOrZero(code[i])
    case _ => false
  }

  /** The contexts of the first n instructions, keyed by the offset of the CALL. */
  function Contexts(code: seq<NormalizedInstruction>, n: nat): map<int, CallContext>
    requires n <= |code|
  {
    if n == 0 then map[]
    else if code[n - 1].name.Precall? && n < |code| then Contexts(code, n - 1)[code[n].offset := ContextAt(code, n - 1)]
    else Contexts(code, n - 1)
  }

  lemma {:induction false} ContextRecorded(code: seq<NormalizedInstruction>, n: nat, i: nat)
    requires Increasing(code) && i < n <= |code| && i + 1 < |code| && code[i].name.Precall?
    ensures code[i + 1].offset in Contexts(code, n)
    ensures Contexts(code, n)[code[i + 1].offset] == ContextAt(code, i)
  {
    if i < n - 1 {
      ContextRecorded(code, n - 1, i);
    }
  }

  /** Every CALL directly follows its PRECALL. */
  ghost predicate CallsPrepared(code: seq<NormalizedInstruction>) {
    forall i :: 0 <= i < |code| && code[i].name.Call? ==> i > 0 && code[i - 1].name.Precall?
  }

  lemma {:induction false} ContextOnlyAfterPrecall(code: seq<NormalizedInstruction>, n: nat, i: nat)
    requires Increasing(code) && n <= |code| && i < |code|
    ensures code[i].offset in Contexts(code, n) <==> 0 < i <= n && code[i - 1].name.Precall?
  {
    if n > 0 {
      ContextOnlyAfterPrecall(code, n - 1, i);
    }
  }

  lemma AllPrepared(code: seq<NormalizedInstruction>)
    requires Increasing(code)
    ensures CallsPrepared(code) <==>
              forall i :: 0 <= i < |code| && code[i].name.Call? ==> code[i].offset in Contexts(code, |code|)
  {
    hide Contexts;
    if CallsPrepared(code) {
      forall i | 0 <= i < |code| && code[i].name.Call? ensures code[i].offset in Contexts(code, |code|) {
        ContextOnlyAfterPrecall(code, |code|, i);
      }
    }
    if forall i :: 0 <= i < |code| && code[i].name.Call? ==> code[i].offset in Contexts(code, |code|) {
      forall i | 0 <= i < |code| && code[i].name.Call? ensures i > 0 && code[i - 1].name.Precall? {
        ContextOnlyAfterPrecall(code, |code|, i);
      }
    }
  }

  // ---------- call protocols ----------

  datatype ReceiverMode = NullReceiver | SelfOrNullReceiver | UnknownReceiver

  datatype CallInfo = CallInfo(
    argc: Option<int>, positionalCount: Option<int>, keywordNames: seq<string>,
    isMethod: bool, hasNull: bool, hasSelf: bool, mode: ReceiverMode,
    usesEx: bool, hasKwargs: bool, precallOffset: Option<int>, namesOffset: Option<int>)

  function ProtocolInfo(first: StackValue, second: StackValue): (bool, bool, bool, ReceiverMode) {
    if first.kind.NullValue? then (false, true, false, NullReceiver)
    else if first.kind.MethodValue? || second.kind.SelfOrNull? then (true, false, true, SelfOrNullReceiver)
    else (false, false, false, UnknownReceiver)
  }

  /** What the two protocol values below the argument containers say. */
  function CallInfoOf(stack: Stack, argc: Option<int>, names: seq<string>, precallOffset: Option<int>,
                      namesOffset: Option<int>, usesEx: bool, hasKwargs: bool): CallInfo {
    var extra := if usesEx then 1 + (if hasKwargs then 1 else 0) else 0;
    var protocolEnd := |stack| - extra;
    var unknown := StackValue(UnknownValue, None);
    var first := if protocolEnd >= 2 then stack[protocolEnd - 2] else unknown;
    var second := if protocolEnd >= 2 then stack[protocolEnd - 1] else unknown;
    var (isMethod, hasNull, hasSelf, mode) := ProtocolInfo(first, second);
    var positional := if argc.None? then None else Some(argc.value - |names|);
    CallInfo(argc, positional, names, isMethod, hasNull, hasSelf, mode, usesEx, hasKwargs, precallOffset, namesOffset)
  }

  /** The call metadata of one instruction, read off the stack before it. */
  function MetadataOf(i: NormalizedInstruction, stack: Stack, contexts: map<int, CallContext>): Option<CallInfo> {
    if i.name.Call? && i.offset in contexts then
      var c := contexts[i.offset];
      Some(CallInfoOf(stack, Some(ArgOrZero(i)), c.names, Some(c.precallOffset), c.namesOffset, false, c.names != []))
    else if i.name.CallFunctionEx? then
      Some(CallInfoOf(stack, None, [], None, None, true, ArgOrZero(i) % 2 == 1))
    else None
  }

  /** Exactly what the two protocol values decide. */
  lemma ProtocolMeans(first: StackValue, second: StackValue)
    ensures var (isMethod, hasNull, hasSelf, mode) := ProtocolInfo(first, second);
            && (hasNull <==> first.kind.NullValue?)
            && (hasSelf <==> !hasNull && (first.kind.MethodValue? || second.kind.SelfOrNull?))
            && (isMethod <==> hasSelf)
            && mode == if hasNull then NullReceiver else if hasSelf then SelfOrNullReceiver else UnknownReceiver
  {
  }

  /** The call's protocol pair lies below `above` values; shorter stacks say nothing. */
  ghost predicate ReadsPair(info: CallInfo, stack: Stack, above: nat) {
    var n := |stack| - above;
    && (n >= 2 ==> (info.hasNull <==> stack[n - 2].kind.NullValue?))
    && (n >= 2 ==> (info.hasSelf <==>
            !info.hasNull && (stack[n - 2].kind.MethodValue? || stack[n - 1].kind.SelfOrNull?)))
    && (n < 2 ==> !info.hasNull && !info.hasSelf)
    && (info.mode.NullReceiver? <==> info.hasNull) && (info.mode.SelfOrNullReceiver? <==> info.hasSelf)
    && (info.isMethod <==> info.hasSelf)
  }

  /**
   Counted calls are described by their operand and context, unpacked ones by the flag for a
   keyword container, and both by the pair below the containers.
   */
  lemma MetadataMeans(i: NormalizedInstruction, stack: Stack, contexts: map<int, CallContext>)
    ensures MetadataOf(i, stack, contexts).Some? <==>
              (i.name.Call? && i.offset in contexts) || i.name.CallFunctionEx?
    ensures MetadataOf(i, stack, contexts).Some? ==>
              var info := MetadataOf(i, stack, contexts).value;
              if i.name.Call? then
                var c := contexts[i.offset];
                && info.argc == Some(if i.arg.Some? then i.arg.value else 0)
                && info.positionalCount == Some(info.argc.value - |c.names|) && info.keywordNames == c.names
                && (info.hasKwargs <==> |c.names| > 0) && !info.usesEx
                && info.precallOffset == Some(c.precallOffset) && info.namesOffset == c.namesOffset
                && ReadsPair(info, stack, 0)
              else
                && info.argc == None && info.positionalCount == None && info.keywordNames == []
                && (info.hasKwargs <==> i.arg.Some? && Flag(i.arg.value, 1) == 1) && info.usesEx
                && info.precallOffset == None && info.namesOffset == None
                && ReadsPair(info, stack, if info.hasKwargs then 2 else 1)
  {
  }

  /** COPY duplicates the value at its depth, SWAP exchanges it with the top, and the rest stays. */
  lemma CopyAndSwap(stack: Stack, i: NormalizedInstruction, depth: nat)
    requires i.arg == Some(depth) && 0 < depth <= |stack|
    ensures i.name.Copy? ==> Applied(stack, i) == stack + [stack[|stack| - depth]]
    ensures i.name.Swap? ==>
              var swapped := Applied(stack, i);
              && |swapped| == |stack|
              && swapped[|stack| - 1] == stack[|stack| - depth] && swapped[|stack| - depth] == stack[|stack| - 1]
              && forall k :: 0 <= k < |stack| - 1 && k != |stack| - depth ==> swapped[k] == stack[k]
  {
  }

  // ---------- where symbolic values come from ----------

  /** Instruction i puts values of this kind on the stack. */
  predicate Makes(i: NormalizedInstruction, kind: ValueKind) {
    match kind
    case NullValue => i.name.PushNull? || (i.name.LoadGlobal? && i.arg.Some? && i.arg.value % 2 == 1)
    case MethodValue => i.name.LoadMethod?
    case SelfOrNull => i.name.LoadMethod?
    case ConstValue => i.name.LoadConst?
    case ClosureValue => i.name.LoadClosure?
    case TupleValue => i.name.BuildTuple?
    case DictValue => i.name.BuildMap? || i.name.BuildConstKeyMap?
    case PlainValue => true
    case UnknownValue => true
  }

  /** A value that is not unknown was made by an instruction from m up to n. */
  ghost predicate MadeBetween(code: seq<NormalizedInstruction>, m: nat, n: nat, v: StackValue)
    requires n <= |code|
  {
    v.kind.UnknownValue? ||
    exists j: nat :: m <= j < n && v.origin == Some(code[j].offset) && Makes(code[j], v.kind)
  }

  ghost predicate AllMade(code: seq<NormalizedInstruction>, m: nat, n: nat, stack: Stack)
    requires n <= |code|
  {
    forall k :: 0 <= k < |stack| ==> MadeBetween(code, m, n, stack[k])
  }

  /** Each value after an instruction was there before, or the instruction made it. */
  lemma AppliedMade(stack: Stack, i: NormalizedInstruction, v: StackValue)
    requires v in Applied(stack, i)
    ensures v in stack || v.kind.UnknownValue? || (v.origin == Some(i.offset) && Makes(i, v.kind))
  {
    if !(v in stack) && !i.name.Copy? && !i.name.Swap? {
      PushedOrBelow(stack, i, v);
    }
  }

  lemma PushedOrBelow(stack: Stack, i: NormalizedInstruction, v: StackValue)
    requires v in Applied(stack, i) && v !in stack && !i.name.Copy? && !i.name.Swap?
    ensures v.origin == Some(i.offset) && Makes(i, v.kind)
  {
    var arg := if i.arg.Some? then i.arg.value else 0;
    hide Popped, Repeat;
    match i.name
    case LoadMethod => PoppedBelow(stack, 1);
    case BuildTuple => PoppedBelow(stack, arg);
    case BuildConstKeyMap =>
      PoppedBelow(stack, 1);
      PoppedBelow(Popped(stack, 1), arg);
    case BuildMap => PoppedBelow(stack, arg * 2);
    case _ =>
      PoppedBelow(stack, i.shape.pop);
      RepeatSame(StackValue(PlainValue, Some(i.offset)), i.shape.push);
  }

  lemma PoppedBelow(stack: Stack, count: int)
    ensures forall v :: v in Popped(stack, count) ==> v in stack
  {
  }

  lemma {:induction false} RepeatSame(v: StackValue, n: int)
    ensures forall w :: w in Repeat(v, n) ==> w == v
    decreases n
  {
    if n > 0 {
      RepeatSame(v, n - 1);
    }
  }

  /** The pass starts over at instruction m: nothing symbolic from before survives. */
  ghost predicate StartsOver(code: seq<NormalizedInstruction>, depths: map<int, int>, m: nat)
    requires m < |code|
  {
    m == 0 || code[m].offset !in depths || |RawStack(code, depths, m)| != depths[code[m].offset]
  }

  /** Right after starting over every value is unknown. */
  lemma UnknownAtStart(code: seq<NormalizedInstruction>, depths: map<int, int>, m: nat)
    requires m < |code| && StartsOver(code, depths, m)
    ensures forall k :: 0 <= k < |StackBefore(code, depths, m)| ==> StackBefore(code, depths, m)[k].kind.UnknownValue?
  {
    if code[m].offset in depths {
      var unknown := StackValue(UnknownValue, Some(code[m].offset));
      RepeatSame(unknown, depths[code[m].offset]);
      var stack := StackBefore(code, depths, m);
      forall k | 0 <= k < |stack| ensures stack[k].kind.UnknownValue? {
        assert stack[k] in stack;
      }
    }
  }

  /** From then on every value is unknown or was made by an instruction since, of its kind. */
  lemma {:induction false} MadeSince(code: seq<NormalizedInstruction>, depths: map<int, int>, m: nat, n: nat)
    requires m <= n < |code| && StartsOver(code, depths, m)
    ensures AllMade(code, m, n, StackBefore(code, depths, n))
    decreases n
  {
    if StartsOver(code, depths, n) {
      UnknownAtStart(code, depths, n);
    } else {
      MadeSince(code, depths, m, n - 1);
      var before, after := StackBefore(code, depths, n - 1), StackBefore(code, depths, n);
      assert after == Applied(before, code[n - 1]);
      hide Applied, StackBefore, StartsOver, Makes;
      forall k | 0 <= k < |after| ensures MadeBetween(code, m, n, after[k]) {
        AppliedMade(before, code[n - 1], after[k]);
        if after[k] in before {
          var l :| 0 <= l < |before| && before[l] == after[k];
          assert MadeBetween(code, m, n - 1, before[l]);
        } else {
          var j: nat := n - 1;
          assert m <= j;
        }
      }
    }
  }

  /**
   Call metadata claims no protocol without an instruction that made it, after the last point at
   which the pass started over: a null needs a PUSH_NULL or a global loaded with one, a bound
   receiver a method lookup.
   */
  ghost predicate ProtocolsMade(code: seq<NormalizedInstruction>, m: nat, n: nat, call: Option<CallInfo>)
    requires m <= n < |code|
  {
    call.Some? ==>
      && (call.value.hasNull || call.value.mode.NullReceiver? ==> exists j: nat :: m <= j < n && MakesNull(code[j]))
      && (call.value.hasSelf || call.value.isMethod || call.value.mode.SelfOrNullReceiver? ==>
            exists j: nat :: m <= j < n && code[j].name.LoadMethod?)
  }

  lemma ProtocolsAreMade(code: seq<NormalizedInstruction>, depths: map<int, int>, contexts: map<int, CallContext>,
                         m: nat, n: nat)
    requires m <= n < |code| && StartsOver(code, depths, m)
    ensures ProtocolsMade(code, m, n, MetadataOf(code[n], StackBefore(code, depths, n), contexts))
  {
    MadeSince(code, depths, m, n);
    hide StackBefore, StartsOver;
    var stack := StackBefore(code, depths, n);
    if MetadataOf(code[n], stack, contexts) == None {
      return;
    }
    var info := MetadataOf(code[n], stack, contexts).value;
    CallInfoReads(stack, info, code[n], contexts);
    if info.hasNull {
      var k :| 0 <= k < |stack| && stack[k].kind.NullValue?;
      var j: nat :| m <= j < n && stack[k].origin == Some(code[j].offset) && Makes(code[j], stack[k].kind);
      assert MakesNull(code[j]);
    }
    if info.hasSelf {
      var k :| 0 <= k < |stack| && (stack[k].kind.MethodValue? || stack[k].kind.SelfOrNull?);
      var j: nat :| m <= j < n && stack[k].origin == Some(code[j].offset) && Makes(code[j], stack[k].kind);
    }
  }

  predicate MakesNull(i: NormalizedInstruction) {
    i.name.PushNull? || (i.name.LoadGlobal? && i.arg.Some? && i.arg.value % 2 == 1)
  }

  lemma CallInfoReads(stack: Stack, info: CallInfo, i: NormalizedInstruction, contexts: map<int, CallContext>)
    requires MetadataOf(i, stack, contexts) == Some(info)
    ensures info.hasNull <==> info.mode.NullReceiver?
    ensures (info.hasSelf <==> info.isMethod) && (info.hasSelf <==> info.mode.SelfOrNullReceiver?)
    ensures info.hasNull ==> exists k :: 0 <= k < |stack| && stack[k].kind.NullValue?
    ensures info.hasSelf ==> exists k :: 0 <= k < |stack| && (stack[k].kind.MethodValue? || stack[k].kind.SelfOrNull?)
  {
  }

  // ---------- the normalizer ----------

  class Normalizer {
    var callContexts: map<int, CallContext>
    var depths: map<int, int>
    var maxDepth: int

    constructor ()
      ensures callContexts == map[] && depths == map[] && maxDepth == 0
    {
      callContexts, depths, maxDepth := map[], map[], 0;
    }

    /** Pair every PRECALL with its CALL and its keyword names; fails exactly on invalid sequences. */
    method ValidateCalls(code: seq<NormalizedInstruction>) returns (error: Option<NormalizationError>)
      requires Increasing(code)
      modifies this`callContexts
      ensures error == None <==> CallsValid(code)
      ensures error.Some? ==> exists i: nat :: i < |code| && ValidBefore(code, i) && Faulty(code, i, error.value)
      ensures error == None ==> callContexts == old(callContexts) + Contexts(code, |code|)
    {
      var pendingNames: seq<string> := [];
      var pendingOffset: Option<int> := None;
      error := None;
      for index := 0 to |code|
        invariant error == None
        invariant ValidBefore(code, index)
        invariant callContexts == old(callContexts) + Contexts(code, index)
        invariant index < |code| && code[index].name.Precall? ==>
                    CallContext(pendingNames, code[index].offset, pendingOffset) == ContextAt(code, index)
        invariant index == 0 || !code[index - 1].name.KwNames? ==> pendingNames == [] && pendingOffset == None
      {
        var instruction := code[index];
        if instruction.name.KwNames? {
          if !instruction.argval.Names? {
            assert !NamesValid(code, index);
            return Some(NamesNotStrings(instruction.offset));
          }
          pendingNames, pendingOffset := instruction.argval.names, Some(instruction.offset);
          if index + 1 >= |code| || !code[index + 1].name.Precall? {
            assert !NamesValid(code, index);
            return Some(NamesWithoutPrecall(instruction.offset));
          }
          continue;
        }
        assert index > 0 ==> NamesValid(code, index - 1);
        if !instruction.name.Precall? {
          continue;
        }
        if index + 1 >= |code| || !code[index + 1].name.Call? {
          assert !PrecallValid(code, index);
          return Some(PrecallWithoutCall(instruction.offset));
        }
        var call := code[index + 1];
        if instruction.arg != call.arg {
          assert !PrecallValid(code, index);
          return Some(ArgumentMismatch(instruction.offset));
        }
        if |pendingNames| > ArgOrZero(instruction) {
          assert !PrecallValid(code, index);
          return Some(TooManyNames(call.offset));
        }
        callContexts := callContexts[call.offset := CallContext(pendingNames, instruction.offset, pendingOffset)];
        pendingNames, pendingOffset := [], None;
      }
    }

    /** Run the symbolic stack over the whole stream, resynchronising where the depth disagrees. */
    method AttachSymbolicMetadata(code: seq<NormalizedInstruction>)
      returns (calls: seq<Option<CallInfo>>, error: Option<NormalizationError>)
      ensures error == None <==>
                forall i :: 0 <= i < |code| && code[i].name.Call? ==> code[i].offset in callContexts
      ensures error == None ==> |calls| == |code|
      ensures error == None ==> forall i :: 0 <= i < |code| ==>
                calls[i] == MetadataOf(code[i], StackBefore(code, depths, i), callContexts)
      ensures error == None ==> forall i: nat, m: nat :: m <= i < |code| && StartsOver(code, depths, m) ==>
                ProtocolsMade(code, m, i, calls[i])
    {
      hide Applied, Resynchronised, MetadataOf, ProtocolsMade, StartsOver;
      calls, error := [], None;
      var stack: Stack := [];
      for i := 0 to |code|
        invariant error == None && |calls| == i
        invariant stack == RawStack(code, depths, i)
        invariant forall k :: 0 <= k < i && code[k].name.Call? ==> code[k].offset in callContexts
        invariant forall k :: 0 <= k < i ==> calls[k] == MetadataOf(code[k], StackBefore(code, depths, k), callContexts)
      {
        var instruction := code[i];
        stack := Resynchronised(stack, depths, instruction.offset);
        if instruction.name.Call? && instruction.offset !in callContexts {
          return calls, Some(MissingContext(instruction.offset));
        }
        calls := calls + [MetadataOf(instruction, stack, callContexts)];
        stack := Applied(stack, instruction);
      }
      forall i: nat, m: nat | m <= i < |code| && StartsOver(code, depths, m)
        ensures ProtocolsMade(code, m, i, calls[i])
      {
        ProtocolsAreMade(code, depths, callContexts, m, i);
      }
    }

    /**
     Validation, stack analysis and metadata recovery, in the order the normalizer runs them; fails
     exactly when one of them is due to.
     */
    method Enrich(code: seq<NormalizedInstruction>, handlers: seq<Region>)
      returns (calls: seq<Option<CallInfo>>, error: Option<NormalizationError>)
      requires Increasing(code)
      modifies this
      ensures error == None <==> CallsValid(code) && Consistent(code, handlers) && CallsPrepared(code)
      ensures error == None ==> callContexts == Contexts(code, |code|)
      ensures error == None ==> forall c :: Reachable(code, handlers, c) <==> Records(depths, c)
      ensures error == None ==> |calls| == |code| && forall i :: 0 <= i < |code| ==>
                calls[i] == MetadataOf(code[i], StackBefore(code, depths, i), callContexts)
      ensures error == None ==> forall i: nat, m: nat :: m <= i < |code| && StartsOver(code, depths, m) ==>
                ProtocolsMade(code, m, i, calls[i])
    {
      hide StartsOver, ProtocolsMade;
      hide CallsValid, Consistent, Reachable, CallsPrepared;
      AllPrepared(code);
      calls := [];
      callContexts := map[];
      error := ValidateCalls(code);
      if error != None {
        return;
      }
      var analysis := AnalyzeStack(code, handlers);
      if analysis.Failed? {
        return [], Some(StackFailure(analysis.error));
      }
      depths, maxDepth := analysis.depths, analysis.maxDepth;
      calls, error := AttachSymbolicMetadata(code);
    }
  }
}
