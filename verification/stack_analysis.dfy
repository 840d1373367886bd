/** The worklist that assigns one operand-stack depth to every reachable instruction. */
module StackAnalyses {
  import opened Options
  import opened ExceptionTables
  import opened Opcodes

  /** What one instruction takes and gives. */
  datatype Shape = Shape(pop: int, push: int, effect: int, jumpEffect: Option<int>, required: int)

  datatype NormalizedInstruction = NormalizedInstruction(
    offset: int, name: Kind, arg: Option<nat>, argval: Value, target: Option<int>, shape: Shape)

  /** Operand values as far as call recovery looks at them. */
  datatype Value = Unit | Names(names: seq<string>) | Opaque(id: int)

  datatype StackError =
    | InconsistentDepth(offset: int, previous: int, depth: int)
    | RequiredDepth(offset: int, depth: int)
    | NegativeDepth(offset: int)
    | NegativeJumpDepth(offset: int)
    | MissingOffset(offset: int)

  datatype StackOutcome = Depths(depths: map<int, int>, maxDepth: int) | Failed(error: StackError)

  /** Terminators of the stack analysis; a generator return also ends straight-line flow. */
  predicate EndsFlow(kind: Kind) {
    Terminator(kind) || kind.ReturnGenerator?
  }

  // ---------- lookup tables ----------

  function ByOffset(code: seq<NormalizedInstruction>): (m: map<int, NormalizedInstruction>)
    ensures forall i :: 0 <= i < |code| ==> code[i].offset in m
    ensures forall o :: o in m ==> m[o] in code && m[o].offset == o
  {
    if code == [] then map[] else
      var last := code[|code| - 1];
      ByOffset(code[..|code| - 1])[last.offset := last]
  }

  /** The offset after each of the first n instructions. */
  function NextOffset(code: seq<NormalizedInstruction>, n: nat): (m: map<int, Option<int>>)
    requires n <= |code|
    ensures forall i :: 0 <= i < n ==> code[i].offset in m
    ensures forall o :: o in m ==> exists i :: 0 <= i < n && code[i].offset == o
  {
    if n == 0 then map[] else
      NextOffset(code, n - 1)[code[n - 1].offset := if n < |code| then Some(code[n].offset) else None]
  }

  // ---------- configurations ----------

  /** Control about to run the instruction at an offset with a given depth. */
  datatype Config = Config(offset: int, depth: int)

  function JumpEffect(i: NormalizedInstruction): int {
    if i.shape.jumpEffect.Some? then i.shape.jumpEffect.value else i.shape.effect
  }

  function HandlerMoves(handlers: seq<Region>, offset: int): (r: seq<Config>)
    ensures forall c :: c in r <==>
              exists h :: h in handlers && h.start <= offset < h.end
                          && c == Config(h.target, h.depth + 1 + if h.lasti then 1 else 0)
  {
    if handlers == [] then [] else
      var h := handlers[0];
      (if h.start <= offset < h.end then [Config(h.target, h.depth + 1 + if h.lasti then 1 else 0)] else [])
      + HandlerMoves(handlers[1..], offset)
  }

  /** Jump and fall-through steps of one instruction. */
  function NormalMoves(i: NormalizedInstruction, following: Option<int>, depth: int): seq<Config> {
    var fall := if following.Some? then [Config(following.value, depth + i.shape.effect)] else [];
    if i.target.Some? then
      [Config(i.target.value, depth + JumpEffect(i))] + if UnconditionalJump(i.name) then [] else fall
    else if EndsFlow(i.name) then []
    else fall
  }

  /** All steps from a configuration: jump, fall through, raise. */
  function Moves(code: seq<NormalizedInstruction>, handlers: seq<Region>, c: Config): seq<Config> {
    if c.offset !in ByOffset(code) || c.offset !in NextOffset(code, |code|) then [] else
      NormalMoves(ByOffset(code)[c.offset], NextOffset(code, |code|)[c.offset], c.depth)
      + HandlerMoves(handlers, c.offset)
  }

  /** Entry at depth zero, and at depth one after a leading generator return. */
  function Initial(code: seq<NormalizedInstruction>): seq<Config> {
    if code == [] then [] else
      var first := code[0].offset;
      var resumed := if first in NextOffset(code, |code|) then NextOffset(code, |code|)[first] else None;
      [Config(first, 0)]
      + if code[0].name.ReturnGenerator? && resumed.Some? then [Config(resumed.value, 1)] else []
  }

  /** No instruction is there, or it underflows. */
  predicate Bad(code: seq<NormalizedInstruction>, c: Config) {
    || c.offset !in ByOffset(code)
    || (var i := ByOffset(code)[c.offset];
        || c.depth < i.shape.required
        || c.depth + i.shape.effect < 0
        || (i.target.Some? && c.depth + JumpEffect(i) < 0))
  }

  /** A run from an initial configuration. */
  ghost predicate Run(code: seq<NormalizedInstruction>, handlers: seq<Region>, cs: seq<Config>) {
    && cs != []
    && cs[0] in Initial(code)
    && forall i :: 0 <= i < |cs| - 1 ==> cs[i + 1] in Moves(code, handlers, cs[i])
  }

  ghost predicate Reachable(code: seq<NormalizedInstruction>, handlers: seq<Region>, c: Config) {
    exists cs :: Run(code, handlers, cs) && cs[|cs| - 1] == c
  }

  lemma ReachableStep(code: seq<NormalizedInstruction>, handlers: seq<Region>, c: Config, d: Config)
    requires Reachable(code, handlers, c) && d in Moves(code, handlers, c)
    ensures Reachable(code, handlers, d)
  {
    hide Moves, Initial;
    var cs :| Run(code, handlers, cs) && cs[|cs| - 1] == c;
    var more := cs + [d];
    forall i | 0 <= i < |more| - 1 ensures more[i + 1] in Moves(code, handlers, more[i]) {
      if i < |cs| - 1 {
        assert cs[i + 1] in Moves(code, handlers, cs[i]);
      }
    }
    assert Run(code, handlers, more);
  }

  lemma ReachableStart(code: seq<NormalizedInstruction>, handlers: seq<Region>, c: Config)
    requires c in Initial(code)
    ensures Reachable(code, handlers, c)
  {
    assert Run(code, handlers, [c]);
  }

  /** No reachable configuration is bad, and no offset is reachable at two depths. */
  ghost predicate Consistent(code: seq<NormalizedInstruction>, handlers: seq<Region>) {
    && (forall c :: Reachable(code, handlers, c) ==> !Bad(code, c))
    && (forall c, d :: Reachable(code, handlers, c) && Reachable(code, handlers, d) && c.offset == d.offset
                       ==> c.depth == d.depth)
  }

  predicate Records(depths: map<int, int>, c: Config) {
    c.offset in depths && depths[c.offset] == c.depth
  }

  /** The recorded depths: reachable, good, and closed under moves up to the pending configurations. */
  ghost predicate Sound(code: seq<NormalizedInstruction>, handlers: seq<Region>, depths: map<int, int>,
                        pending: seq<Config>)
  {
    && (forall c :: c in pending ==> Reachable(code, handlers, c))
    && (forall o :: o in depths ==> o in ByOffset(code))
    && (forall c :: Records(depths, c) ==> Reachable(code, handlers, c) && !Bad(code, c))
    && (forall c :: c in Initial(code) ==> c in pending || Records(depths, c))
    && (forall c, d :: Records(depths, c) && d in Moves(code, handlers, c) ==> d in pending || Records(depths, d))
  }

  /** Recording a good new configuration and queueing its moves. */
  lemma RecordSound(code: seq<NormalizedInstruction>, handlers: seq<Region>, depths: map<int, int>,
                    pending: seq<Config>)
    requires Sound(code, handlers, depths, pending) && pending != []
    requires pending[0].offset !in depths && !Bad(code, pending[0])
    ensures Sound(code, handlers, depths[pending[0].offset := pending[0].depth],
                  pending[1..] + Moves(code, handlers, pending[0]))
  {
    hide Moves, Bad, Reachable, Initial, ByOffset;
    var c := pending[0];
    GoodKnown(code, c);
    var depths', pending' := depths[c.offset := c.depth], pending[1..] + Moves(code, handlers, c);
    assert pending == [c] + pending[1..];
    forall d | d in Moves(code, handlers, c) ensures Reachable(code, handlers, d) {
      ReachableStep(code, handlers, c, d);
    }
    forall d ensures Records(depths', d) <==> Records(depths, d) || d == c {
    }
  }

  lemma GoodKnown(code: seq<NormalizedInstruction>, c: Config)
    requires !Bad(code, c)
    ensures c.offset in ByOffset(code)
  {
  }

  /** Dropping a configuration that is already recorded. */
  lemma DropSound(code: seq<NormalizedInstruction>, handlers: seq<Region>, depths: map<int, int>, pending: seq<Config>)
    requires Sound(code, handlers, depths, pending) && pending != [] && Records(depths, pending[0])
    ensures Sound(code, handlers, depths, pending[1..])
  {
    hide Moves, Bad, Reachable, Initial, ByOffset;
    assert pending == [pending[0]] + pending[1..];
  }

  /** With nothing pending every run stays among the recorded configurations. */
  lemma {:induction false} RunRecorded(code: seq<NormalizedInstruction>, handlers: seq<Region>, depths: map<int, int>,
                                       cs: seq<Config>)
    requires Sound(code, handlers, depths, []) && Run(code, handlers, cs)
    ensures Records(depths, cs[|cs| - 1])
  {
    hide Moves, Bad, Initial, ByOffset;
    if |cs| > 1 {
      var front := cs[..|cs| - 1];
      forall i | 0 <= i < |front| - 1 ensures front[i + 1] in Moves(code, handlers, front[i]) {
        assert cs[i + 1] in Moves(code, handlers, cs[i]);
      }
      assert Run(code, handlers, front);
      RunRecorded(code, handlers, depths, front);
      assert cs[|cs| - 2 + 1] in Moves(code, handlers, cs[|cs| - 2]);
    }
  }

  lemma AllRecorded(code: seq<NormalizedInstruction>, handlers: seq<Region>, depths: map<int, int>)
    requires Sound(code, handlers, depths, [])
    ensures Consistent(code, handlers)
    ensures forall c :: Reachable(code, handlers, c) <==> Records(depths, c)
  {
    hide Moves, Bad, Initial, ByOffset;
    forall c | Reachable(code, handlers, c) ensures Records(depths, c) {
      var cs :| Run(code, handlers, cs) && cs[|cs| - 1] == c;
      RunRecorded(code, handlers, depths, cs);
    }
  }

  ghost predicate IsMaximum(depths: map<int, int>, m: int) {
    && (forall o :: o in depths ==> depths[o] <= m)
    && (m == 0 || exists o :: o in depths && depths[o] == m)
  }

  /** The check that a configuration fails. */
  ghost predicate Fails(code: seq<NormalizedInstruction>, c: Config, e: StackError) {
    match e
    case MissingOffset(o) => o == c.offset && c.offset !in ByOffset(code)
    case InconsistentDepth(_, _, _) => false
    case RequiredDepth(o, d) => c == Config(o, d) && o in ByOffset(code) && d < ByOffset(code)[o].shape.required
    case NegativeDepth(o) => o == c.offset && o in ByOffset(code) && c.depth + ByOffset(code)[o].shape.effect < 0
    case NegativeJumpDepth(o) =>
      o == c.offset && o in ByOffset(code) && ByOffset(code)[o].target.Some? &&
          c.depth + JumpEffect(ByOffset(code)[o]) < 0
  }

  /** Some run reaches what the error reports. */
  ghost predicate Justified(code: seq<NormalizedInstruction>, handlers: seq<Region>, e: StackError) {
    if e.InconsistentDepth? then
      && e.previous != e.depth
      && Reachable(code, handlers, Config(e.offset, e.previous)) && Reachable(code, handlers, Config(e.offset, e.depth))
    else
      exists c :: Reachable(code, handlers, c) && Fails(code, c, e)
  }

  /**
   The analysis succeeds exactly on consistent code. It then records precisely the reachable
   configurations and their maximum depth.
   */
  method AnalyzeStack(code: seq<NormalizedInstruction>, handlers: seq<Region>) returns (r: StackOutcome)
    ensures r.Depths? <==> Consistent(code, handlers)
    ensures r.Depths? ==> forall c :: Reachable(code, handlers, c) <==> Records(r.depths, c)
    ensures r.Depths? ==> IsMaximum(r.depths, r.maxDepth) && r.maxDepth >= 0
    ensures r.Failed? ==> Justified(code, handlers, r.error)
  {
    hide Moves, Reachable, Initial, ByOffset, Fails;
    var byOffset := ByOffset(code);
    var depths: map<int, int> := map[];
    var pending := Initial(code);
    var maximum := 0;
    InitialSound(code, handlers);
    while pending != []
      invariant Sound(code, handlers, depths, pending)
      invariant IsMaximum(depths, maximum) && maximum >= 0
      decreases byOffset.Keys - depths.Keys, |pending|
    {
      var Config(offset, depth) := pending[0];
      assert Reachable(code, handlers, pending[0]);
      if offset in depths {
        if depths[offset] != depth {
          Conflict(code, handlers, Config(offset, depths[offset]), pending[0]);
          return Failed(InconsistentDepth(offset, depths[offset], depth));
        }
        DropSound(code, handlers, depths, pending);
        pending := pending[1..];
        continue;
      }
      var error := CheckConfig(code, Config(offset, depth));
      if error.Some? {
        BadReached(code, handlers, pending[0]);
        return Failed(error.value);
      }
      RecordSound(code, handlers, depths, pending);
      ghost var before := depths;
      pending := pending[1..] + Moves(code, handlers, pending[0]);
      depths := depths[offset := depth];
      Maximal(before, maximum, offset, depth);
      maximum := if depth > maximum then depth else maximum;
      KeysShrink(byOffset.Keys, before.Keys, depths.Keys, offset);
    }
    AllRecorded(code, handlers, depths);
    r := Depths(depths, maximum);
  }

  /** The checks made before a configuration is recorded, in order. */
  method CheckConfig(code: seq<NormalizedInstruction>, c: Config) returns (error: Option<StackError>)
    ensures error == None <==> !Bad(code, c)
    ensures error.Some? ==> Fails(code, c, error.value)
  {
    var byOffset := ByOffset(code);
    if c.offset !in byOffset {
      return Some(MissingOffset(c.offset));
    }
    var instruction := byOffset[c.offset];
    if c.depth < instruction.shape.required {
      return Some(RequiredDepth(c.offset, c.depth));
    }
    if c.depth + instruction.shape.effect < 0 {
      return Some(NegativeDepth(c.offset));
    }
    if instruction.target.Some? && c.depth + JumpEffect(instruction) < 0 {
      return Some(NegativeJumpDepth(c.offset));
    }
    error := None;
  }

  lemma InitialSound(code: seq<NormalizedInstruction>, handlers: seq<Region>)
    ensures Sound(code, handlers, map[], Initial(code))
  {
    hide Moves, Bad, Initial, ByOffset, Reachable;
    forall c | c in Initial(code) ensures Reachable(code, handlers, c) {
      ReachableStart(code, handlers, c);
    }
  }

  lemma Conflict(code: seq<NormalizedInstruction>, handlers: seq<Region>, c: Config, d: Config)
    requires Reachable(code, handlers, c) && Reachable(code, handlers, d)
    requires c.offset == d.offset && c.depth != d.depth
    ensures !Consistent(code, handlers)
  {
    hide Reachable, Bad;
  }

  lemma BadReached(code: seq<NormalizedInstruction>, handlers: seq<Region>, c: Config)
    requires Reachable(code, handlers, c) && Bad(code, c)
    ensures !Consistent(code, handlers)
  {
    hide Reachable, Bad;
  }

  lemma Maximal(depths: map<int, int>, m: int, offset: int, depth: int)
    requires IsMaximum(depths, m) && offset !in depths
    ensures IsMaximum(depths[offset := depth], if depth > m then depth else m)
  {
    var more := depths[offset := depth];
    if depth > m {
      assert more[offset] == depth;
    } else if m != 0 {
      var o :| o in depths && depths[o] == m;
      assert more[o] == m;
    }
  }

  lemma KeysShrink(all: set<int>, before: set<int>, after: set<int>, offset: int)
    requires after == before + {offset} && offset in all && offset !in before
    ensures all - after < all - before
  {
    assert offset in all - before && offset !in all - after;
  }

  // ---------- the analysis in terms of instructions and shapes ----------

  ghost predicate Increasing(code: seq<NormalizedInstruction>) {
    forall i, j :: 0 <= i < j < |code| ==> code[i].offset < code[j].offset
  }

  lemma {:induction false} TablesAt(code: seq<NormalizedInstruction>, n: nat, i: nat)
    requires Increasing(code) && i < n <= |code|
    ensures code[i].offset in ByOffset(code[..n]) && ByOffset(code[..n])[code[i].offset] == code[i]
    ensures code[i].offset in NextOffset(code, n)
    ensures NextOffset(code, n)[code[i].offset] == if i + 1 < |code| then Some(code[i + 1].offset) else None
  {
    assert code[..n][..n - 1] == code[..n - 1];
    if i < n - 1 {
      TablesAt(code, n - 1, i);
    }
  }

  /** With increasing offsets the tables describe each instruction itself. */
  lemma TablesOf(code: seq<NormalizedInstruction>, i: nat)
    requires Increasing(code) && i < |code|
    ensures code[i].offset in ByOffset(code) && ByOffset(code)[code[i].offset] == code[i]
    ensures code[i].offset in NextOffset(code, |code|)
    ensures NextOffset(code, |code|)[code[i].offset] == if i + 1 < |code| then Some(code[i + 1].offset) else None
  {
    hide ByOffset, NextOffset;
    TablesAt(code, |code|, i);
    assert code[..|code|] == code;
  }

  /**
   What one instruction does to control and depth: jump with its own effect if it has one, fall
   through unless it always jumps or ends, or raise into a handler that sets the depth.
   */
  ghost predicate StepsTo(code: seq<NormalizedInstruction>, handlers: seq<Region>, i: nat, depth: int, d: Config)
    requires i < |code|
  {
    var ins := code[i];
    var alwaysJumps := ins.name.JumpForward? || ins.name.JumpBackward? || ins.name.JumpBackwardNoInterrupt?;
    var ends := ins.name.ReturnValue? || ins.name.RaiseVarargs? || ins.name.Reraise? || ins.name.ReturnGenerator?;
    || (&& ins.target == Some(d.offset)
        && d.depth == depth + (match ins.shape.jumpEffect case Some(j) => j case None => ins.shape.effect))
    || (&& i + 1 < |code| && d == Config(code[i + 1].offset, depth + ins.shape.effect)
        && if ins.target.Some? then !alwaysJumps else !ends)
    || exists h :: h in handlers && h.start <= ins.offset < h.end && h.target == d.offset
                   && d.depth == h.depth + (if h.lasti then 2 else 1)
  }

  lemma MovesExact(code: seq<NormalizedInstruction>, handlers: seq<Region>, i: nat, depth: int, d: Config)
    requires Increasing(code) && i < |code|
    ensures d in Moves(code, handlers, Config(code[i].offset, depth)) <==> StepsTo(code, handlers, i, depth, d)
  {
    hide ByOffset, NextOffset, HandlerMoves, NormalMoves, Increasing;
    TablesOf(code, i);
    var following := if i + 1 < |code| then Some(code[i + 1].offset) else None;
    NormalMovesExact(code[i], following, depth, d);
    HandlerMovesExact(handlers, code[i].offset, d);
    assert Moves(code, handlers, Config(code[i].offset, depth))
           == NormalMoves(code[i], following, depth) + HandlerMoves(handlers, code[i].offset);
  }

  lemma HandlerMovesExact(handlers: seq<Region>, offset: int, d: Config)
    ensures d in HandlerMoves(handlers, offset) <==>
              exists h :: h in handlers && h.start <= offset < h.end && h.target == d.offset
                          && d.depth == h.depth + (if h.lasti then 2 else 1)
  {
    hide HandlerMoves;
    if d in HandlerMoves(handlers, offset) {
      var h :| h in handlers && h.start <= offset < h.end
               && d == Config(h.target, h.depth + 1 + if h.lasti then 1 else 0);
    }
    if h :| h in handlers && h.start <= offset < h.end && h.target == d.offset
            && d.depth == h.depth + (if h.lasti then 2 else 1) {
      assert d == Config(h.target, h.depth + 1 + if h.lasti then 1 else 0);
    }
  }

  lemma NormalMovesExact(i: NormalizedInstruction, following: Option<int>, depth: int, d: Config)
    ensures d in NormalMoves(i, following, depth) <==>
      || (&& i.target == Some(d.offset)
          && d.depth == depth + (match i.shape.jumpEffect case Some(j) => j case None => i.shape.effect))
      || (&& following == Some(d.offset) && d.depth == depth + i.shape.effect
          && if i.target.Some?
             then !(i.name.JumpForward? || i.name.JumpBackward? || i.name.JumpBackwardNoInterrupt?)
             else !(i.name.ReturnValue? || i.name.RaiseVarargs? || i.name.Reraise? || i.name.ReturnGenerator?))
  {
    var jump := Config(if i.target.Some? then i.target.value else 0, depth + JumpEffect(i));
    var fall := Config(if following.Some? then following.value else 0, depth + i.shape.effect);
    assert [jump] + [fall] == [jump, fall];
    assert [jump] + [] == [jump];
  }

  /** A run starts with an empty stack, or after a leading generator return with the value sent. */
  ghost predicate Starts(code: seq<NormalizedInstruction>, c: Config) {
    && code != []
    && (|| c == Config(code[0].offset, 0)
        || (code[0].name.ReturnGenerator? && |code| > 1 && c == Config(code[1].offset, 1)))
  }

  lemma InitialExact(code: seq<NormalizedInstruction>, c: Config)
    requires Increasing(code)
    ensures c in Initial(code) <==> Starts(code, c)
  {
    hide ByOffset, NextOffset, Increasing;
    if code != [] {
      TablesOf(code, 0);
    }
  }

  /** One step between configurations. */
  ghost predicate Steps(code: seq<NormalizedInstruction>, handlers: seq<Region>, c: Config, d: Config) {
    exists i: nat :: i < |code| && code[i].offset == c.offset && StepsTo(code, handlers, i, c.depth, d)
  }

  ghost predicate StepRun(code: seq<NormalizedInstruction>, handlers: seq<Region>, cs: seq<Config>) {
    && cs != []
    && Starts(code, cs[0])
    && forall k :: 0 <= k < |cs| - 1 ==> Steps(code, handlers, cs[k], cs[k + 1])
  }

  lemma KnownOffset(code: seq<NormalizedInstruction>, o: int)
    ensures o in ByOffset(code) ==> exists i: nat :: i < |code| && code[i].offset == o
  {
    hide ByOffset;
    if o in ByOffset(code) {
      var ins := ByOffset(code)[o];
      var i :| 0 <= i < |code| && code[i] == ins;
      var k: nat := i;
      assert code[k].offset == o;
    }
  }

  lemma StepsAreMoves(code: seq<NormalizedInstruction>, handlers: seq<Region>, c: Config, d: Config)
    requires Increasing(code)
    ensures d in Moves(code, handlers, c) <==> Steps(code, handlers, c, d)
  {
    hide StepsTo, HandlerMoves, NormalMoves;
    if i: nat :| i < |code| && code[i].offset == c.offset {
      forall k: nat | k < |code| && code[k].offset == c.offset ensures k == i {
      }
      MovesExact(code, handlers, i, c.depth, d);
    } else {
      KnownOffset(code, c.offset);
    }
  }

  ghost predicate Arrives(code: seq<NormalizedInstruction>, handlers: seq<Region>, c: Config) {
    exists cs: seq<Config> :: StepRun(code, handlers, cs) && cs != [] && cs[|cs| - 1] == c
  }

  /** Reachability is reachability by these steps. */
  lemma ReachableExact(code: seq<NormalizedInstruction>, handlers: seq<Region>, c: Config)
    requires Increasing(code)
    ensures Reachable(code, handlers, c) <==> Arrives(code, handlers, c)
  {
    hide Moves, Steps, Initial, Starts;
    forall cs ensures Run(code, handlers, cs) <==> StepRun(code, handlers, cs) {
      RunExact(code, handlers, cs);
    }
  }

  lemma RunExact(code: seq<NormalizedInstruction>, handlers: seq<Region>, cs: seq<Config>)
    requires Increasing(code)
    ensures Run(code, handlers, cs) <==> StepRun(code, handlers, cs)
  {
    hide Moves, Steps, Initial, Starts;
    if cs != [] {
      InitialExact(code, cs[0]);
    }
    if Run(code, handlers, cs) {
      forall k | 0 <= k < |cs| - 1 ensures Steps(code, handlers, cs[k], cs[k + 1]) {
        assert cs[k + 1] in Moves(code, handlers, cs[k]);
        StepsAreMoves(code, handlers, cs[k], cs[k + 1]);
      }
    }
    if StepRun(code, handlers, cs) {
      forall k | 0 <= k < |cs| - 1 ensures cs[k + 1] in Moves(code, handlers, cs[k]) {
        assert Steps(code, handlers, cs[k], cs[k + 1]);
        StepsAreMoves(code, handlers, cs[k], cs[k + 1]);
      }
    }
  }

  /** A configuration is good when an instruction is there, finds its operands, and leaves no negative depth. */
  lemma BadExact(code: seq<NormalizedInstruction>, c: Config)
    requires Increasing(code)
    ensures !Bad(code, c) <==> Finds(code, c)
  {
    hide ByOffset, NextOffset;
    if i: nat :| i < |code| && code[i].offset == c.offset {
      TablesOf(code, i);
      assert !Bad(code, c) <==> Suffices(code[i], c.depth);
      forall k: nat | k < |code| && code[k].offset == c.offset ensures code[k] == code[i] {
        SameInstruction(code, i, k);
      }
    } else {
      KnownOffset(code, c.offset);
    }
  }

  lemma SameInstruction(code: seq<NormalizedInstruction>, i: nat, k: nat)
    requires Increasing(code) && i < |code| && k < |code| && code[i].offset == code[k].offset
    ensures i == k
  {
  }

  predicate Suffices(i: NormalizedInstruction, depth: int) {
    && depth >= i.shape.required
    && depth + i.shape.effect >= 0
    && (i.target.Some? ==> depth + (match i.shape.jumpEffect case Some(j) => j case None => i.shape.effect) >= 0)
  }

  /** Every run is at an instruction that finds its operands, and no two runs disagree about a depth. */
  ghost predicate RunsAgree(code: seq<NormalizedInstruction>, handlers: seq<Region>) {
    && (forall cs: seq<Config> :: StepRun(code, handlers, cs) ==> cs != [] && Finds(code, cs[|cs| - 1]))
    && (forall cs: seq<Config>, ds: seq<Config> ::
          StepRun(code, handlers, cs) && StepRun(code, handlers, ds) && cs != [] && ds != [] ==>
            Agree(cs[|cs| - 1], ds[|ds| - 1]))
  }

  ghost predicate Finds(code: seq<NormalizedInstruction>, c: Config) {
    exists i: nat :: i < |code| && code[i].offset == c.offset && Suffices(code[i], c.depth)
  }

  predicate Agree(c: Config, d: Config) {
    c.offset == d.offset ==> c.depth == d.depth
  }

  lemma RunArrives(code: seq<NormalizedInstruction>, handlers: seq<Region>, cs: seq<Config>)
    requires StepRun(code, handlers, cs)
    ensures cs != [] && Arrives(code, handlers, cs[|cs| - 1])
  {
  }

  /** So the analysis succeeds exactly when the runs agree. */
  lemma ConsistentExact(code: seq<NormalizedInstruction>, handlers: seq<Region>)
    requires Increasing(code)
    ensures Consistent(code, handlers) <==> RunsAgree(code, handlers)
  {
    hide Reachable, Bad, StepRun, Finds;
    forall c ensures Reachable(code, handlers, c) <==> Arrives(code, handlers, c) {
      ReachableExact(code, handlers, c);
    }
    forall c ensures !Bad(code, c) <==> Finds(code, c) {
      BadExact(code, c);
    }
    forall cs: seq<Config> | StepRun(code, handlers, cs) ensures cs != [] && Reachable(code, handlers, cs[|cs| - 1]) {
      RunArrives(code, handlers, cs);
    }
    if RunsAgree(code, handlers) {
      forall c, d | Reachable(code, handlers, c) && Reachable(code, handlers, d) ensures Agree(c, d) {
        var cs: seq<Config> :| StepRun(code, handlers, cs) && cs != [] && cs[|cs| - 1] == c;
        var ds: seq<Config> :| StepRun(code, handlers, ds) && ds != [] && ds[|ds| - 1] == d;
      }
    }
  }

  /**
   What recorded depths say about each instruction: enough operands, the next instruction at the depth
   after falling through, the target at the depth after jumping, handlers at their own depth.
   */
  lemma RecordedSteps(code: seq<NormalizedInstruction>, handlers: seq<Region>, depths: map<int, int>, i: nat)
    requires Increasing(code) && Consistent(code, handlers) && i < |code| && code[i].offset in depths
    requires forall c :: Reachable(code, handlers, c) <==> Records(depths, c)
    ensures Suffices(code[i], depths[code[i].offset])
    ensures forall d :: StepsTo(code, handlers, i, depths[code[i].offset], d) ==>
              d.offset in depths && depths[d.offset] == d.depth
  {
    hide Reachable, Moves, Bad, StepsTo;
    var c := Config(code[i].offset, depths[code[i].offset]);
    assert Records(depths, c);
    BadExact(code, c);
    forall k: nat | k < |code| && code[k].offset == c.offset ensures k == i {
    }
    forall d | StepsTo(code, handlers, i, c.depth, d) ensures Records(depths, d) {
      MovesExact(code, handlers, i, c.depth, d);
      ReachableStep(code, handlers, c, d);
    }
  }

  /** A recorded jump leads to its target at the depth that its jump effect gives. */
  lemma JumpDepth(code: seq<NormalizedInstruction>, handlers: seq<Region>, depths: map<int, int>, i: nat, t: int)
    requires Increasing(code) && Consistent(code, handlers) && i < |code| && code[i].offset in depths
    requires forall c :: Reachable(code, handlers, c) <==> Records(depths, c)
    requires code[i].target == Some(t)
    ensures t in depths
    ensures match code[i].shape.jumpEffect
            case Some(j) => depths[t] == depths[code[i].offset] + j
            case None => depths[t] == depths[code[i].offset] + code[i].shape.effect
  {
    hide Reachable, Consistent;
    RecordedSteps(code, handlers, depths, i);
    var effect := match code[i].shape.jumpEffect case Some(j) => j case None => code[i].shape.effect;
    assert StepsTo(code, handlers, i, depths[code[i].offset], Config(t, depths[code[i].offset] + effect));
  }
}
