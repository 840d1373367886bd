/**
 Recovering one Boolean expression from a branch graph: expressions with an effectful
 evaluator for truth contexts, the builders that combine and factor them, and the proof that
 every builder keeps the truth value, the evaluation order and the number of evaluations.
 */
module Decisions {
  import opened Options

  datatype CompareOp = Eq | NotEq | Lt | LtE | Gt | GtE | In | NotIn | Is | IsNot

  datatype BoolOp = And | Or

  /** Recovered syntax. Leaves and operands stand for opaque syntax trees. */
  datatype Expr =
    | Leaf(id: int)
    | Compare(left: int, op: CompareOp, right: int)
    | Constant(value: bool)
    | Not(operand: Expr)
    | Bool(junction: BoolOp, values: seq<Expr>)
    | IfExp(test: Expr, body: Expr, orelse: Expr)

  /** Every Boolean operation has at least two operands, as the syntax tree demands. */
  ghost predicate WellFormed(e: Expr) {
    match e
    case Leaf(_) => true
    case Compare(_, _, _) => true
    case Constant(_) => true
    case Not(x) => WellFormed(x)
    case Bool(_, xs) => |xs| >= 2 && forall x :: x in xs ==> WellFormed(x)
    case IfExp(t, b, o) => WellFormed(t) && WellFormed(b) && WellFormed(o)
  }

  // ---------- meaning ----------

  /** How leaves and comparisons run: each yields a truth value and a new state. */
  datatype Env<!S> = Env(leaf: (int, S) -> (bool, S), compare: (int, CompareOp, int, S) -> (bool, S))

  function Inverse(op: CompareOp): CompareOp {
    match op
    case Eq => NotEq
    case NotEq => Eq
    case Lt => GtE
    case LtE => Gt
    case Gt => LtE
    case GtE => Lt
    case In => NotIn
    case NotIn => In
    case Is => IsNot
    case IsNot => Is
  }

  /** Two comparisons of the same operands run alike and answer oppositely. */
  ghost predicate Opposite<S(!new)>(env: Env<S>, op: CompareOp, other: CompareOp) {
    forall l, r, s ::
      && env.compare(l, op, r, s).0 == !env.compare(l, other, r, s).0
      && env.compare(l, op, r, s).1 == env.compare(l, other, r, s).1
  }

  /** Comparisons as on totally ordered operands. */
  ghost predicate Complementary<S(!new)>(env: Env<S>) {
    && Opposite(env, Eq, NotEq)
    && Opposite(env, Lt, GtE)
    && Opposite(env, Gt, LtE)
    && Opposite(env, In, NotIn)
    && Opposite(env, Is, IsNot)
  }

  /** Truth value and final state of an expression in a truth context, with short circuits. */
  function Eval<S>(e: Expr, env: Env<S>, s: S): (bool, S)
    decreases e, 0
  {
    match e
    case Leaf(id) => env.leaf(id, s)
    case Compare(l, op, r) => env.compare(l, op, r, s)
    case Constant(b) => (b, s)
    case Not(x) => var (b, s1) := Eval(x, env, s); (!b, s1)
    case Bool(op, xs) => EvalAll(op, xs, env, s)
    case IfExp(t, b, o) => var (c, s1) := Eval(t, env, s); if c then Eval(b, env, s1) else Eval(o, env, s1)
  }

  function EvalAll<S>(op: BoolOp, xs: seq<Expr>, env: Env<S>, s: S): (bool, S)
    decreases xs, 1
  {
    if xs == [] then (op.And?, s) else
      var (b, s1) := Eval(xs[0], env, s);
      if b == op.And? then EvalAll(op, xs[1..], env, s1) else (b, s1)
  }

  // ---------- builders ----------

  function Negate(e: Expr): Expr {
    match e
    case Not(x) => x
    case Compare(l, op, r) => Compare(l, Inverse(op), r)
    case _ => Not(e)
  }

  /** The operands, with operations of the same kind spliced in. */
  function Flatten(op: BoolOp, xs: seq<Expr>): seq<Expr> {
    if xs == [] then [] else
      (if xs[0].Bool? && xs[0].junction == op then xs[0].values else [xs[0]]) + Flatten(op, xs[1..])
  }

  function BooleanOperation(op: BoolOp, xs: seq<Expr>): Expr {
    Bool(op, Flatten(op, xs))
  }

  /** One operand stands for itself. */
  function Joined(op: BoolOp, xs: seq<Expr>): Expr {
    if |xs| == 1 then xs[0] else BooleanOperation(op, xs)
  }

  function Front(xs: seq<Expr>): seq<Expr>
    requires xs != []
  {
    xs[..|xs| - 1]
  }

  function Last(xs: seq<Expr>): Expr
    requires xs != []
  {
    xs[|xs| - 1]
  }

  /** `E if A else (B and E)` becomes `(A or B) and E`. */
  function FactorAndSuffix(test: Expr, whenTrue: Expr, whenFalse: Expr): Option<Expr> {
    if whenFalse.Bool? && whenFalse.junction.And? && |whenFalse.values| >= 2 && whenTrue == Last(whenFalse.values) then
      var guard := BooleanOperation(Or, [test, Joined(And, Front(whenFalse.values))]);
      Some(BooleanOperation(And, [guard, whenTrue]))
    else
      None
  }

  /** X, when the expression is `X or suffix`. */
  function OrPrefix(e: Expr, suffix: Expr): Option<Expr> {
    if e.Bool? && e.junction.Or? && |e.values| >= 2 && Last(e.values) == suffix then
      Some(Joined(Or, Front(e.values)))
    else
      None
  }

  function FactorOrSuffix(test: Expr, whenTrue: Expr, whenFalse: Expr): Option<Expr>
    requires WellFormed(whenTrue) && WellFormed(whenFalse)
  {
    var truePrefix := OrPrefix(whenTrue, whenFalse);
    var falsePrefix := OrPrefix(whenFalse, whenTrue);
    if truePrefix.Some? then
      Some(BooleanOperation(Or, [BooleanOperation(And, [test, truePrefix.value]), whenFalse]))
    else if falsePrefix.Some? then
      Some(BooleanOperation(Or, [BooleanOperation(And, [Negate(test), falsePrefix.value]), whenTrue]))
    else if whenTrue.Bool? && whenTrue.junction.Or? && whenFalse.Bool? && whenFalse.junction.Or?
            && Last(whenTrue.values) == Last(whenFalse.values) then
      var choice := IfExp(test, Joined(Or, Front(whenTrue.values)), Joined(Or, Front(whenFalse.values)));
      Some(BooleanOperation(Or, [choice, Last(whenTrue.values)]))
    else
      None
  }

  /** The expression for one branch node, given those of its two continuations. */
  function CombineDecision(test: Expr, whenTrue: Expr, whenFalse: Expr): Expr
    requires WellFormed(whenTrue) && WellFormed(whenFalse)
  {
    if whenTrue == Constant(true) && whenFalse == Constant(false) then test
    else if whenTrue == Constant(false) && whenFalse == Constant(true) then Negate(test)
    else if whenFalse == Constant(false) then BooleanOperation(And, [test, whenTrue])
    else if whenTrue == Constant(false) then BooleanOperation(And, [Negate(test), whenFalse])
    else if whenTrue == Constant(true) then BooleanOperation(Or, [test, whenFalse])
    else if whenFalse == Constant(true) then BooleanOperation(Or, [Negate(test), whenTrue])
    else
      var byAnd := FactorAndSuffix(test, whenTrue, whenFalse);
      var byOr := FactorOrSuffix(test, whenTrue, whenFalse);
      if byAnd.Some? then byAnd.value
      else if byOr.Some? then byOr.value
      else IfExp(test, whenTrue, whenFalse)
  }

  // ---------- every builder keeps the meaning ----------

  lemma NegateFlips<S(!new)>(e: Expr, env: Env<S>, s: S)
    requires Complementary(env)
    ensures Eval(Negate(e), env, s) == (!Eval(e, env, s).0, Eval(e, env, s).1)
  {
    match e
    case Compare(l, op, r) => InverseFlips(l, op, r, env, s);
    case _ =>
  }

  lemma InverseFlips<S(!new)>(l: int, op: CompareOp, r: int, env: Env<S>, s: S)
    requires Complementary(env)
    ensures env.compare(l, Inverse(op), r, s) == (!env.compare(l, op, r, s).0, env.compare(l, op, r, s).1)
  {
  }

  // ---------- comparisons of integers ----------

  /** Reading operands may have effects; membership and identity are any relations. */
  datatype Operands<!S> = Operands(
    leaf: (int, S) -> (bool, S), read: (int, S) -> (int, S), member: (int, int) -> bool, same: (int, int) -> bool)

  /** What the comparison operators mean. */
  function Answer<S>(o: Operands<S>, x: int, op: CompareOp, y: int): bool {
    match op
    case Eq => x == y
    case NotEq => x != y
    case Lt => x < y
    case LtE => x <= y
    case Gt => x > y
    case GtE => x >= y
    case In => o.member(x, y)
    case NotIn => !o.member(x, y)
    case Is => o.same(x, y)
    case IsNot => !o.same(x, y)
  }

  /** Read the left operand, then the right one, and compare. */
  function OnIntegers<S>(o: Operands<S>): Env<S> {
    Env(o.leaf, (l: int, op: CompareOp, r: int, s: S) =>
      var (x, s1) := o.read(l, s);
      var (y, s2) := o.read(r, s1);
      (Answer(o, x, op, y), s2))
  }

  /** The ordinary comparisons satisfy the hypothesis of every theorem here. */
  lemma IntegersComplementary<S(!new)>(o: Operands<S>)
    ensures Complementary(OnIntegers(o))
  {
    AnswersOppose(o, Eq, NotEq);
    AnswersOppose(o, Lt, GtE);
    AnswersOppose(o, Gt, LtE);
    AnswersOppose(o, In, NotIn);
    AnswersOppose(o, Is, IsNot);
  }

  lemma AnswersOppose<S(!new)>(o: Operands<S>, op: CompareOp, other: CompareOp)
    requires forall x, y :: Answer(o, x, op, y) == !Answer(o, x, other, y)
    ensures Opposite(OnIntegers(o), op, other)
  {
    hide Answer;
    var env := OnIntegers(o);
    forall l, r, s
      ensures env.compare(l, op, r, s).0 == !env.compare(l, other, r, s).0
      ensures env.compare(l, op, r, s).1 == env.compare(l, other, r, s).1
    {
      ComparesRead(o, l, op, r, s);
      ComparesRead(o, l, other, r, s);
    }
  }

  /** A comparison reads its left operand, then its right one, and answers about the values. */
  lemma ComparesRead<S(!new)>(o: Operands<S>, l: int, op: CompareOp, r: int, s: S)
    ensures var x := o.read(l, s);
            var y := o.read(r, x.1);
            OnIntegers(o).compare(l, op, r, s) == (Answer(o, x.0, op, y.0), y.1)
  {
  }

  /** Negation flips every condition over integers, and evaluates the same operands. */
  lemma NegateOnIntegers<S(!new)>(e: Expr, o: Operands<S>, s: S)
    ensures Eval(Negate(e), OnIntegers(o), s) == (!Eval(e, OnIntegers(o), s).0, Eval(e, OnIntegers(o), s).1)
  {
    IntegersComplementary(o);
    NegateFlips(e, OnIntegers(o), s);
  }

  /** Running a concatenation runs the first part, then the second unless the first decides. */
  lemma {:induction false} EvalConcat<S>(op: BoolOp, xs: seq<Expr>, ys: seq<Expr>, env: Env<S>, s: S)
    ensures EvalAll(op, xs + ys, env, s) ==
            var (b, s1) := EvalAll(op, xs, env, s);
            if b == op.And? then EvalAll(op, ys, env, s1) else (b, s1)
  {
    if xs == [] {
      assert xs + ys == ys;
    } else {
      assert (xs + ys)[1..] == xs[1..] + ys;
      EvalConcat(op, xs[1..], ys, env, Eval(xs[0], env, s).1);
    }
  }

  lemma EvalOne<S>(op: BoolOp, x: Expr, env: Env<S>, s: S)
    ensures EvalAll(op, [x], env, s) == Eval(x, env, s)
  {
  }

  /** Splicing nested operations of the same kind changes nothing. */
  lemma {:induction false} FlattenKeeps<S>(op: BoolOp, xs: seq<Expr>, env: Env<S>, s: S)
    ensures EvalAll(op, Flatten(op, xs), env, s) == EvalAll(op, xs, env, s)
  {
    if xs != [] {
      var head := if xs[0].Bool? && xs[0].junction == op then xs[0].values else [xs[0]];
      EvalConcat(op, head, Flatten(op, xs[1..]), env, s);
      EvalOne(op, xs[0], env, s);
      FlattenKeeps(op, xs[1..], env, Eval(xs[0], env, s).1);
    }
  }

  lemma JoinedKeeps<S>(op: BoolOp, xs: seq<Expr>, env: Env<S>, s: S)
    ensures Eval(Joined(op, xs), env, s) == EvalAll(op, xs, env, s)
  {
    if |xs| == 1 {
      assert xs == [xs[0]];
      EvalOne(op, xs[0], env, s);
    } else {
      FlattenKeeps(op, xs, env, s);
    }
  }

  /** A binary operation runs its left operand, then its right one unless the left decides. */
  lemma EvalBinary<S>(op: BoolOp, x: Expr, y: Expr, env: Env<S>, s: S)
    ensures Eval(BooleanOperation(op, [x, y]), env, s) ==
            var (b, s1) := Eval(x, env, s);
            if b == op.And? then Eval(y, env, s1) else (b, s1)
  {
    FlattenKeeps(op, [x, y], env, s);
    EvalOne(op, y, env, Eval(x, env, s).1);
    assert [x, y][1..] == [y];
  }

  /** An operation is its front operands followed by its last. */
  lemma EvalFrontLast<S>(op: BoolOp, xs: seq<Expr>, env: Env<S>, s: S)
    requires xs != []
    ensures Eval(Bool(op, xs), env, s) ==
            var (b, s1) := Eval(Joined(op, Front(xs)), env, s);
            if b == op.And? then Eval(Last(xs), env, s1) else (b, s1)
  {
    assert xs == Front(xs) + [Last(xs)];
    EvalConcat(op, Front(xs), [Last(xs)], env, s);
    JoinedKeeps(op, Front(xs), env, s);
    EvalOne(op, Last(xs), env, Eval(Joined(op, Front(xs)), env, s).1);
  }

  /** What a branch node means: run the predicate, then the chosen continuation. */
  function Branch<S>(test: Expr, whenTrue: Expr, whenFalse: Expr, env: Env<S>, s: S): (bool, S) {
    var (b, s1) := Eval(test, env, s);
    if b then Eval(whenTrue, env, s1) else Eval(whenFalse, env, s1)
  }

  lemma FactorAndKeeps<S(!new)>(p: Expr, t: Expr, f: Expr, env: Env<S>, s: S)
    requires FactorAndSuffix(p, t, f).Some?
    ensures Eval(FactorAndSuffix(p, t, f).value, env, s) == Branch(p, t, f, env, s)
  {
    var rest := Joined(And, Front(f.values));
    var guard := BooleanOperation(Or, [p, rest]);
    EvalBinary(And, guard, t, env, s);
    EvalBinary(Or, p, rest, env, s);
    EvalFrontLast(And, f.values, env, Eval(p, env, s).1);
  }

  lemma OrPrefixKeeps<S>(e: Expr, suffix: Expr, env: Env<S>, s: S)
    requires OrPrefix(e, suffix).Some?
    ensures Eval(e, env, s) ==
            var (b, s1) := Eval(OrPrefix(e, suffix).value, env, s);
            if b then (true, s1) else Eval(suffix, env, s1)
  {
    EvalFrontLast(Or, e.values, env, s);
  }

  lemma FactorOrKeeps<S(!new)>(p: Expr, t: Expr, f: Expr, env: Env<S>, s: S)
    requires Complementary(env) && WellFormed(t) && WellFormed(f)
    requires FactorOrSuffix(p, t, f).Some?
    ensures Eval(FactorOrSuffix(p, t, f).value, env, s) == Branch(p, t, f, env, s)
  {
    var s1 := Eval(p, env, s).1;
    if OrPrefix(t, f).Some? {
      var x := OrPrefix(t, f).value;
      OrPrefixKeeps(t, f, env, s1);
      EvalBinary(Or, BooleanOperation(And, [p, x]), f, env, s);
      EvalBinary(And, p, x, env, s);
    } else if OrPrefix(f, t).Some? {
      var x := OrPrefix(f, t).value;
      OrPrefixKeeps(f, t, env, s1);
      NegateFlips(p, env, s);
      EvalBinary(Or, BooleanOperation(And, [Negate(p), x]), t, env, s);
      EvalBinary(And, Negate(p), x, env, s);
    } else {
      var choice := IfExp(p, Joined(Or, Front(t.values)), Joined(Or, Front(f.values)));
      EvalBinary(Or, choice, Last(t.values), env, s);
      EvalFrontLast(Or, t.values, env, s1);
      EvalFrontLast(Or, f.values, env, s1);
    }
  }

  /** Through every constant, factoring and flattening case the combination means the branch. */
  lemma CombineKeeps<S(!new)>(p: Expr, t: Expr, f: Expr, env: Env<S>, s: S)
    requires Complementary(env) && WellFormed(t) && WellFormed(f)
    ensures Eval(CombineDecision(p, t, f), env, s) == Branch(p, t, f, env, s)
  {
    NegateFlips(p, env, s);
    if t.Constant? || f.Constant? {
      ConstantArmKeeps(p, t, f, env, s);
    }
    if FactorAndSuffix(p, t, f).Some? {
      FactorAndKeeps(p, t, f, env, s);
    }
    if FactorOrSuffix(p, t, f).Some? {
      FactorOrKeeps(p, t, f, env, s);
    }
  }

  lemma ConstantArmKeeps<S(!new)>(p: Expr, t: Expr, f: Expr, env: Env<S>, s: S)
    requires Complementary(env) && (t.Constant? || f.Constant?)
    ensures f == Constant(false) ==> Eval(BooleanOperation(And, [p, t]), env, s) == Branch(p, t, f, env, s)
    ensures t == Constant(false) ==> Eval(BooleanOperation(And, [Negate(p), f]), env, s) == Branch(p, t, f, env, s)
    ensures t == Constant(true) ==> Eval(BooleanOperation(Or, [p, f]), env, s) == Branch(p, t, f, env, s)
    ensures f == Constant(true) ==> Eval(BooleanOperation(Or, [Negate(p), t]), env, s) == Branch(p, t, f, env, s)
  {
    NegateFlips(p, env, s);
    EvalBinary(And, p, t, env, s);
    EvalBinary(And, Negate(p), f, env, s);
    EvalBinary(Or, p, f, env, s);
    EvalBinary(Or, Negate(p), t, env, s);
  }

  // ---------- when factoring happens ----------

  /** `E if A else (B and E)` is always factored. */
  lemma FactorsAnd(a: Expr, bs: seq<Expr>, e: Expr)
    requires bs != [] && !e.Constant? && WellFormed(e) && WellFormed(Bool(And, bs + [e]))
    ensures CombineDecision(a, e, Bool(And, bs + [e]))
            == BooleanOperation(And, [BooleanOperation(Or, [a, Joined(And, bs)]), e])
  {
    assert Last(bs + [e]) == e && Front(bs + [e]) == bs;
  }

  /** `(X or S) if P else S` is `P and X or S`. */
  lemma FactorsOrTrue(p: Expr, xs: seq<Expr>, suffix: Expr)
    requires xs != [] && !suffix.Constant? && WellFormed(suffix) && WellFormed(Bool(Or, xs + [suffix]))
    ensures CombineDecision(p, Bool(Or, xs + [suffix]), suffix)
            == BooleanOperation(Or, [BooleanOperation(And, [p, Joined(Or, xs)]), suffix])
  {
    var whole := Bool(Or, xs + [suffix]);
    assert Last(xs + [suffix]) == suffix && Front(xs + [suffix]) == xs;
    if suffix.Bool? && suffix.values != [] {
      NotInside(whole, suffix);
    }
  }

  /** `S if P else (X or S)` is `not P and X or S`. */
  lemma FactorsOrFalse(p: Expr, xs: seq<Expr>, suffix: Expr)
    requires xs != [] && !suffix.Constant? && WellFormed(suffix) && WellFormed(Bool(Or, xs + [suffix]))
    ensures CombineDecision(p, suffix, Bool(Or, xs + [suffix]))
            == BooleanOperation(Or, [BooleanOperation(And, [Negate(p), Joined(Or, xs)]), suffix])
  {
    var whole := Bool(Or, xs + [suffix]);
    assert Last(xs + [suffix]) == suffix && Front(xs + [suffix]) == xs;
    if suffix.Bool? && suffix.values != [] {
      NotInside(whole, suffix);
    }
  }

  /** `(X or S) if P else (Y or S)` is `(X if P else Y) or S`. */
  lemma FactorsOrBoth(p: Expr, xs: seq<Expr>, ys: seq<Expr>, suffix: Expr)
    requires xs != [] && ys != [] && WellFormed(Bool(Or, xs + [suffix])) && WellFormed(Bool(Or, ys + [suffix]))
    ensures CombineDecision(p, Bool(Or, xs + [suffix]), Bool(Or, ys + [suffix]))
            == BooleanOperation(Or, [IfExp(p, Joined(Or, xs), Joined(Or, ys)), suffix])
  {
    var t, f := Bool(Or, xs + [suffix]), Bool(Or, ys + [suffix]);
    assert Last(t.values) == suffix && Front(t.values) == xs;
    assert Last(f.values) == suffix && Front(f.values) == ys;
    LastDiffers(t);
    LastDiffers(f);
  }

  lemma LastDiffers(e: Expr)
    requires e.Bool? && e.values != []
    ensures Last(e.values) != e
  {
    assert Last(e.values) in e.values;
  }

  /** An expression is not the last operand of its own last operand. */
  lemma NotInside(whole: Expr, suffix: Expr)
    requires whole.Bool? && whole.values != [] && Last(whole.values) == suffix
    requires suffix.Bool? && suffix.values != []
    ensures Last(suffix.values) != whole
  {
    assert suffix in whole.values;
    assert Last(suffix.values) in suffix.values;
  }

  /** Nothing else is factored: other arms stay a conditional expression. */
  lemma StaysConditional(p: Expr, t: Expr, f: Expr)
    requires WellFormed(t) && WellFormed(f) && !t.Constant? && !f.Constant?
    requires f.Bool? && f.junction.And? ==> f.values[|f.values| - 1] != t
    requires t.Bool? && t.junction.Or? ==> t.values[|t.values| - 1] != f
    requires f.Bool? && f.junction.Or? ==> f.values[|f.values| - 1] != t
    requires t.Bool? && t.junction.Or? && f.Bool? && f.junction.Or? ==>
               t.values[|t.values| - 1] != f.values[|f.values| - 1]
    ensures CombineDecision(p, t, f) == IfExp(p, t, f)
  {
  }

  // ---------- every builder keeps the syntax well formed ----------

  ghost predicate AllWellFormed(xs: seq<Expr>) {
    forall x :: x in xs ==> WellFormed(x)
  }

  lemma NegateWellFormed(e: Expr)
    requires WellFormed(e)
    ensures WellFormed(Negate(e))
  {
  }

  lemma {:induction false} FlattenWellFormed(op: BoolOp, xs: seq<Expr>)
    requires AllWellFormed(xs)
    ensures AllWellFormed(Flatten(op, xs)) && |Flatten(op, xs)| >= |xs|
  {
    if xs != [] {
      assert WellFormed(xs[0]);
      FlattenWellFormed(op, xs[1..]);
    }
  }

  lemma JoinedWellFormed(op: BoolOp, xs: seq<Expr>)
    requires AllWellFormed(xs) && xs != []
    ensures WellFormed(Joined(op, xs))
  {
    FlattenWellFormed(op, xs);
    assert WellFormed(xs[0]);
  }

  lemma BinaryWellFormed(op: BoolOp, x: Expr, y: Expr)
    requires WellFormed(x) && WellFormed(y)
    ensures WellFormed(BooleanOperation(op, [x, y]))
  {
    FlattenWellFormed(op, [x, y]);
  }

  lemma FactoredWellFormed(p: Expr, t: Expr, f: Expr)
    requires WellFormed(p) && WellFormed(t) && WellFormed(f)
    ensures FactorAndSuffix(p, t, f).Some? ==> WellFormed(FactorAndSuffix(p, t, f).value)
    ensures FactorOrSuffix(p, t, f).Some? ==> WellFormed(FactorOrSuffix(p, t, f).value)
  {
    NegateWellFormed(p);
    if FactorAndSuffix(p, t, f).Some? {
      JoinedWellFormed(And, Front(f.values));
      BinaryWellFormed(Or, p, Joined(And, Front(f.values)));
      BinaryWellFormed(And, BooleanOperation(Or, [p, Joined(And, Front(f.values))]), t);
    }
    if FactorOrSuffix(p, t, f).Some? {
      if OrPrefix(t, f).Some? {
        JoinedWellFormed(Or, Front(t.values));
        BinaryWellFormed(And, p, Joined(Or, Front(t.values)));
        BinaryWellFormed(Or, BooleanOperation(And, [p, Joined(Or, Front(t.values))]), f);
      } else if OrPrefix(f, t).Some? {
        JoinedWellFormed(Or, Front(f.values));
        BinaryWellFormed(And, Negate(p), Joined(Or, Front(f.values)));
        BinaryWellFormed(Or, BooleanOperation(And, [Negate(p), Joined(Or, Front(f.values))]), t);
      } else {
        JoinedWellFormed(Or, Front(t.values));
        JoinedWellFormed(Or, Front(f.values));
        BinaryWellFormed(Or, IfExp(p, Joined(Or, Front(t.values)), Joined(Or, Front(f.values))), Last(t.values));
      }
    }
  }

  lemma CombineWellFormed(p: Expr, t: Expr, f: Expr)
    requires WellFormed(p) && WellFormed(t) && WellFormed(f)
    ensures WellFormed(CombineDecision(p, t, f))
  {
    NegateWellFormed(p);
    FactoredWellFormed(p, t, f);
    BinaryWellFormed(And, p, t);
    BinaryWellFormed(And, Negate(p), f);
    BinaryWellFormed(Or, p, f);
    BinaryWellFormed(Or, Negate(p), t);
  }
}
