/**
 Nested unpack targets: the recursive parser of a loop target's UNPACK and STORE tokens, and an
 encoder of targets written as specification.
 */
module UnpackTargets {

  /** `Ignored` stands for the internal token kinds the parser skips. */
  datatype Token =
    | Store(name: string)
    | UnpackSequence(count: nat)
    | UnpackEx(argument: nat)
    | PopTop
    | Ignored
    | Other

  datatype Target = Name(id: string) | Tuple(elements: seq<Target>) | Starred(value: Target)

  datatype Outcome =
    | Ok(target: Target, end: nat)
    | Ended
    | NonStore(index: nat)

  datatype Outcomes = All(targets: seq<Target>, end: nat) | Failed(error: Outcome)

  // ---------- tokens and targets ----------

  predicate Forbidden(token: Token) {
    token.PopTop? || token.Other?
  }

  function Skip(ts: seq<Token>, i: nat): (k: nat)
    ensures i <= k && (k <= |ts| || k == i)
    ensures k < |ts| ==> !ts[k].Ignored?
    ensures forall j :: i <= j < k ==> j < |ts| && ts[j].Ignored?
    decreases |ts| - i
  {
    if i < |ts| && ts[i].Ignored? then Skip(ts, i + 1) else i
  }

  /** The tokens from i to k without the ignored ones. */
  function Meaningful(ts: seq<Token>, i: nat, k: nat): seq<Token>
    requires i <= k <= |ts|
    decreases k - i
  {
    if i == k then [] else (if ts[i].Ignored? then [] else [ts[i]]) + Meaningful(ts, i + 1, k)
  }

  /** What a starred element stores is what the star marks. */
  function Bare(t: Target): Target {
    if t.Starred? then t.value else t
  }

  function BareAll(es: seq<Target>): (r: seq<Target>)
    ensures |r| == |es| && forall i :: 0 <= i < |es| ==> r[i] == Bare(es[i])
  {
    seq(|es|, i requires 0 <= i < |es| => Bare(es[i]))
  }

  lemma BareCons(es: seq<Target>)
    ensures es == [] ==> BareAll(es) == []
    ensures es != [] ==> BareAll(es) == [Bare(es[0])] + BareAll(es[1..])
  {
  }

  /**
   Targets the bytecode can express: a tuple has at most one starred element, with at most 255
   elements before it, and a star marks a tuple element only.
   */
  predicate WellFormed(t: Target) {
    match t
    case Name(_) => true
    case Starred(_) => false
    case Tuple(es) =>
      && (forall i :: 0 <= i < |es| ==> WellFormed(if es[i].Starred? then es[i].value else es[i]))
      && (forall i, j :: 0 <= i < j < |es| ==> !es[i].Starred? || !es[j].Starred?)
      && (forall i :: 0 <= i < |es| && es[i].Starred? ==> i < 256)
  }

  /** The position of the starred element; the length when there is none. */
  function StarAt(es: seq<Target>): (k: nat)
    ensures k <= |es| && (k < |es| ==> es[k].Starred?)
    ensures forall i :: 0 <= i < k ==> !es[i].Starred?
  {
    if es == [] || es[0].Starred? then 0 else 1 + StarAt(es[1..])
  }

  function Encode(t: Target): seq<Token>
    decreases t, 0
  {
    match t
    case Name(id) => [Store(id)]
    case Starred(value) => Encode(value)
    case Tuple(es) => [Opener(es)] + EncodeAll(es)
  }

  function Opener(es: seq<Target>): Token {
    var k := StarAt(es);
    if k == |es| then UnpackSequence(|es|) else UnpackEx(k + (|es| - 1 - k) * 256)
  }

  function EncodeAll(es: seq<Target>): seq<Token>
    decreases es, 1
  {
    if es == [] then [] else Encode(es[0]) + EncodeAll(es[1..])
  }

  // ---------- the parser, as a function ----------

  /** Elements before the star, or all of them when there is no star. */
  function Before(t: Token): nat
    requires t.UnpackSequence? || t.UnpackEx?
  {
    if t.UnpackSequence? then t.count else t.argument % 256
  }

  function Count(t: Token): nat
    requires t.UnpackSequence? || t.UnpackEx?
  {
    if t.UnpackSequence? then t.count else t.argument % 256 + t.argument / 256 + 1
  }

  /** Star the element at position k, if there is one. */
  function Star(es: seq<Target>, k: nat): seq<Target> {
    if k < |es| then es[k := Starred(es[k])] else es
  }

  function ParseOne(ts: seq<Token>, start: nat): (r: Outcome)
    ensures r.Ok? ==> start < r.end <= |ts|
    decreases if start < |ts| then |ts| - start else 0, 0
  {
    var k := Skip(ts, start);
    if k >= |ts| then Ended
    else if ts[k].Store? then Ok(Name(ts[k].name), k + 1)
    else if ts[k].UnpackSequence? || ts[k].UnpackEx? then
      var r := ParseMany(ts, k + 1, Count(ts[k]));
      if r.Failed? then r.error else Ok(Tuple(Star(r.targets, Before(ts[k]))), r.end)
    else NonStore(k)
  }

  function ParseMany(ts: seq<Token>, start: nat, n: nat): (r: Outcomes)
    ensures r.All? ==> |r.targets| == n && start <= r.end && (n > 0 || start <= |ts| ==> r.end <= |ts|)
    ensures r.Failed? ==> !r.error.Ok?
    decreases if start < |ts| then |ts| - start else 0, n
  {
    if n == 0 then All([], start)
    else
      var first := ParseOne(ts, start);
      if !first.Ok? then Failed(first)
      else
        var others := ParseMany(ts, first.end, n - 1);
        if others.Failed? then others else All([first.target] + others.targets, others.end)
  }

  function Prefixed(targets: seq<Target>, others: Outcomes): Outcomes {
    if others.Failed? then others else All(targets + others.targets, others.end)
  }

  lemma ParseManyStep(ts: seq<Token>, start: nat, n: nat)
    ensures n == 0 ==> ParseMany(ts, start, n) == All([], start)
    ensures n > 0 ==>
              var first := ParseOne(ts, start);
              ParseMany(ts, start, n) ==
              if first.Ok? then Prefixed([first.target], ParseMany(ts, first.end, n - 1)) else Failed(first)
  {
  }

  lemma SkipStep(ts: seq<Token>, i: nat)
    ensures Skip(ts, i) == if i < |ts| && ts[i].Ignored? then Skip(ts, i + 1) else i
  {
  }

  lemma ParseOneStep(ts: seq<Token>, start: nat)
    ensures var k := Skip(ts, start);
            && (k >= |ts| ==> ParseOne(ts, start) == Ended)
            && (k < |ts| ==>
                  && (ts[k].Store? ==> ParseOne(ts, start) == Ok(Name(ts[k].name), k + 1))
                  && (Forbidden(ts[k]) ==> ParseOne(ts, start) == NonStore(k))
                  && (ts[k].UnpackSequence? || ts[k].UnpackEx? ==>
                        var r := ParseMany(ts, k + 1, Count(ts[k]));
                        ParseOne(ts, start) ==
                        if r.Failed? then r.error else Ok(Tuple(Star(r.targets, Before(ts[k]))), r.end)))
  {
  }

  lemma StarNone(k: nat)
    ensures Star([], k) == []
  {
  }

  lemma PrefixedMore(plain: seq<Target>, x: Target, r: Outcomes)
    ensures Prefixed(plain, Prefixed([x], r)) == Prefixed(plain + [x], r)
  {
    if r.All? {
      assert plain + ([x] + r.targets) == (plain + [x]) + r.targets;
    }
  }

  lemma StarAppend(es: seq<Target>, k: nat, x: Target)
    ensures Star(es, k) + [if |es| == k then Starred(x) else x] == Star(es + [x], k)
  {
  }

  // ---------- the parser ----------

  method ForTargetElement(ts: seq<Token>, start: nat) returns (r: Outcome)
    ensures r == ParseOne(ts, start)
    decreases if start < |ts| then |ts| - start else 0
  {
    hide ParseMany, ParseOne, Star, Skip;
    var k := start;
    ParseOneStep(ts, start);
    while k < |ts| && ts[k].Ignored?
      invariant Skip(ts, k) == Skip(ts, start)
      invariant start <= k
    {
      SkipStep(ts, k);
      k := k + 1;
    }
    SkipStep(ts, k);
    if k >= |ts| {
      return Ended;
    }
    var token := ts[k];
    if token.Store? {
      return Ok(Name(token.name), k + 1);
    }
    if !token.UnpackSequence? && !token.UnpackEx? {
      return NonStore(k);
    }
    var before, after, count;
    if token.UnpackSequence? {
      before, after := token.count, -1;
      count := before;
    } else {
      before, after := token.argument % 256, token.argument / 256;
      count := before + after + 1;
    }
    var targets: seq<Target> := [];
    ghost var plain: seq<Target> := [];
    assert before == Before(token) && count == Count(token);
    StarNone(before);
    assert forall r :: Prefixed(plain, r) == r;
    var cursor := k + 1;
    for index := 0 to count
      invariant cursor <= |ts| && k < cursor
      invariant |plain| == index
      invariant targets == Star(plain, before)
      invariant ParseMany(ts, k + 1, count) == Prefixed(plain, ParseMany(ts, cursor, count - index))
    {
      ParseManyStep(ts, cursor, count - index);
      var one := ForTargetElement(ts, cursor);
      if !one.Ok? {
        return one;
      }
      cursor := one.end;
      StarAppend(plain, before, one.target);
      PrefixedMore(plain, one.target, ParseMany(ts, one.end, count - index - 1));
      plain := plain + [one.target];
      targets := targets + [if after >= 0 && index == before then Starred(one.target) else one.target];
    }
    ParseManyStep(ts, cursor, 0);
    assert plain + [] == plain;
    r := Ok(Tuple(targets), cursor);
  }

  datatype LoopTarget = NoTarget(next: nat) | Element(outcome: Outcome)

  /** POP_TOP discards the value; anything else is a target. */
  method ForTarget(ts: seq<Token>, start: nat) returns (r: LoopTarget)
    ensures var k := Skip(ts, start);
            r == if k < |ts| && ts[k].PopTop? then NoTarget(k + 1) else Element(ParseOne(ts, start))
  {
    var k := start;
    while k < |ts| && ts[k].Ignored?
      invariant Skip(ts, k) == Skip(ts, start)
    {
      k := k + 1;
    }
    if k >= |ts| {
      return Element(Ended);
    }
    if ts[k].PopTop? {
      return NoTarget(k + 1);
    }
    var one := ForTargetElement(ts, k);
    r := Element(one);
  }

  // ---------- following an encoding through the stream ----------

  datatype Position = Lost | At(index: nat)

  /** Where the stream stands after exactly the tokens of `code`, with ignored ones in between. */
  function After(ts: seq<Token>, i: nat, code: seq<Token>): (r: Position)
    ensures r.At? ==> i <= r.index && (code != [] || i <= |ts| ==> r.index <= |ts|)
    decreases |code|
  {
    if code == [] then At(i)
    else
      var k := Skip(ts, i);
      if k < |ts| && ts[k] == code[0] then After(ts, k + 1, code[1..]) else Lost
  }

  lemma {:induction false} AfterConcat(ts: seq<Token>, i: nat, a: seq<Token>, b: seq<Token>)
    ensures After(ts, i, a + b) ==
            var m := After(ts, i, a);
            if m.Lost? then Lost else After(ts, m.index, b)
    decreases |a|
  {
    if a == [] {
      assert a + b == b;
    } else {
      assert (a + b)[1..] == a[1..] + b;
      var k := Skip(ts, i);
      if k < |ts| && ts[k] == a[0] {
        AfterConcat(ts, k + 1, a[1..], b);
      }
    }
  }

  // ---------- what the parser returns is what the tokens encode ----------

  lemma StarInverse(es: seq<Target>)
    requires WellFormed(Tuple(es))
    ensures Count(Opener(es)) == |es|
    ensures Star(BareAll(es), Before(Opener(es))) == es
  {
    var k := StarAt(es);
    if k < |es| {
      assert (k + (|es| - 1 - k) * 256) % 256 == k && (k + (|es| - 1 - k) * 256) / 256 == |es| - 1 - k;
      assert forall i :: k < i < |es| ==> !es[i].Starred?;
    }
  }

  lemma {:induction false} EncodingParses(ts: seq<Token>, i: nat, t: Target)
    requires WellFormed(Bare(t)) && After(ts, i, Encode(t)).At?
    ensures ParseOne(ts, i) == Ok(Bare(t), After(ts, i, Encode(t)).index)
    decreases t, 0
  {
    var k := Skip(ts, i);
    if t.Starred? {
      EncodingParses(ts, i, t.value);
    } else if t.Tuple? {
      var es := t.elements;
      assert Encode(t)[1..] == EncodeAll(es);
      StarInverse(es);
      EncodingsParse(ts, k + 1, es);
    } else {
      assert Encode(t)[1..] == [];
    }
  }

  lemma NothingFollows(ts: seq<Token>, i: nat)
    ensures After(ts, i, []) == At(i)
  {
  }

  lemma {:induction false} EncodingsParse(ts: seq<Token>, i: nat, es: seq<Target>)
    requires forall j :: 0 <= j < |es| ==> WellFormed(Bare(es[j]))
    requires After(ts, i, EncodeAll(es)).At?
    ensures ParseMany(ts, i, |es|) ==
            All(BareAll(es), After(ts, i, EncodeAll(es)).index)
    decreases es, 1
  {
    hide Encode, ParseOne, WellFormed, After, ParseMany, BareAll;
    BareCons(es);
    ParseManyStep(ts, i, |es|);
    NothingFollows(ts, i);
    if es != [] {
      AfterConcat(ts, i, Encode(es[0]), EncodeAll(es[1..]));
      EncodingParses(ts, i, es[0]);
      EncodingsParse(ts, After(ts, i, Encode(es[0])).index, es[1..]);
    }
  }

  lemma StarredWellFormed(plain: seq<Target>, k: nat, opener: Token)
    requires forall j :: 0 <= j < |plain| ==> WellFormed(plain[j])
    requires opener.UnpackSequence? || opener.UnpackEx?
    requires |plain| == Count(opener) && k == Before(opener)
    ensures WellFormed(Tuple(Star(plain, k))) && Opener(Star(plain, k)) == opener
    ensures EncodeAll(Star(plain, k)) == EncodeAll(plain)
  {
    var es := Star(plain, k);
    assert forall j :: 0 <= j < |plain| ==> Bare(es[j]) == plain[j];
    SameEncoding(es, plain);
  }

  lemma {:induction false} SameEncoding(es: seq<Target>, plain: seq<Target>)
    requires |es| == |plain| && forall j :: 0 <= j < |es| ==> es[j] == plain[j] || es[j] == Starred(plain[j])
    ensures EncodeAll(es) == EncodeAll(plain)
  {
    if es != [] {
      SameEncoding(es[1..], plain[1..]);
    }
  }

  lemma {:induction false} ParsedIsEncoding(ts: seq<Token>, i: nat)
    requires ParseOne(ts, i).Ok?
    ensures var r := ParseOne(ts, i);
            WellFormed(r.target) && After(ts, i, Encode(r.target)) == At(r.end)
    decreases if i < |ts| then |ts| - i else 0, 0
  {
    var k := Skip(ts, i);
    if !ts[k].Store? {
      ParsedAreEncodings(ts, k + 1, Count(ts[k]));
      var plain := ParseMany(ts, k + 1, Count(ts[k])).targets;
      StarredWellFormed(plain, Before(ts[k]), ts[k]);
      var t := ParseOne(ts, i).target;
      assert Encode(t)[1..] == EncodeAll(t.elements);
    }
  }

  lemma {:induction false} ParsedAreEncodings(ts: seq<Token>, i: nat, n: nat)
    requires ParseMany(ts, i, n).All?
    ensures var r := ParseMany(ts, i, n);
            && (forall j :: 0 <= j < |r.targets| ==> WellFormed(r.targets[j]))
            && After(ts, i, EncodeAll(r.targets)) == At(r.end)
    decreases if i < |ts| then |ts| - i else 0, n
  {
    if n > 0 {
      var first := ParseOne(ts, i);
      ParsedIsEncoding(ts, i);
      ParsedAreEncodings(ts, first.end, n - 1);
      var others := ParseMany(ts, first.end, n - 1).targets;
      assert ([first.target] + others)[1..] == others;
      AfterConcat(ts, i, Encode(first.target), EncodeAll(others));
    }
  }

  lemma {:induction false} MeaningfulSplit(ts: seq<Token>, i: nat, m: nat, k: nat)
    requires i <= m <= k <= |ts|
    ensures Meaningful(ts, i, k) == Meaningful(ts, i, m) + Meaningful(ts, m, k)
    decreases m - i
  {
    if i < m {
      MeaningfulSplit(ts, i + 1, m, k);
    }
  }

  lemma {:induction false} AllIgnored(ts: seq<Token>, i: nat, k: nat)
    requires i <= k <= |ts| && forall j :: i <= j < k ==> ts[j].Ignored?
    ensures Meaningful(ts, i, k) == []
    decreases k - i
  {
    if i < k {
      AllIgnored(ts, i + 1, k);
    }
  }

  lemma SkipMeaningful(ts: seq<Token>, i: nat, e: nat)
    requires i <= |ts|
    ensures var k := Skip(ts, i);
            && Meaningful(ts, i, k) == []
            && (k < e <= |ts| ==> Meaningful(ts, i, e) == [ts[k]] + Meaningful(ts, k + 1, e))
  {
    var k := Skip(ts, i);
    AllIgnored(ts, i, k);
    if k < e <= |ts| {
      MeaningfulSplit(ts, i, k, e);
    }
  }

  lemma Uncons(x: Token, rest: seq<Token>, code: seq<Token>)
    requires code != []
    ensures [x] + rest == code <==> x == code[0] && rest == code[1..]
  {
    if x == code[0] && rest == code[1..] {
      assert code == [code[0]] + code[1..];
    }
    assert ([x] + rest)[1..] == rest;
  }

  lemma MeaningfulEnd(ts: seq<Token>, i: nat, e: nat)
    requires i <= e <= |ts|
    ensures i == e ==> Meaningful(ts, i, e) == []
  {
  }

  /** Reading an encoding ends right after its last token, whatever was ignored before. */
  lemma {:induction false} AfterIsMeaningful(ts: seq<Token>, i: nat, code: seq<Token>, e: nat)
    requires i <= |ts| && code != []
    ensures After(ts, i, code) == At(e) <==>
              i < e <= |ts| && !ts[e - 1].Ignored? && Meaningful(ts, i, e) == code
    decreases |code|
  {
    hide Meaningful, Skip;
    var k := Skip(ts, i);
    SkipMeaningful(ts, i, e);
    if k < e <= |ts| {
      var rest := Meaningful(ts, k + 1, e);
      Uncons(ts[k], rest, code);
      if code[1..] == [] {
        OneToken(ts, k, e);
      } else {
        AfterIsMeaningful(ts, k + 1, code[1..], e);
        MeaningfulEnd(ts, k + 1, e);
      }
    } else if i < e <= |ts| {
      AllIgnored(ts, i, e);
    }
  }

  lemma OneToken(ts: seq<Token>, k: nat, e: nat)
    requires k < e <= |ts|
    ensures !ts[e - 1].Ignored? && Meaningful(ts, k + 1, e) == [] <==> e == k + 1 && !ts[k].Ignored?
  {
    if k + 1 < e {
      MeaningfulSplit(ts, k + 1, e - 1, e);
    }
  }

  // ---------- errors are reported exactly where no target can continue ----------

  /** t begins with the tokens read, and has more. */
  predicate Completes(t: Target, read: seq<Token>) {
    WellFormed(t) && |read| < |Encode(t)| && Encode(t)[..|read|] == read
  }

  /** What each outcome says about the tokens from `start`. */
  ghost predicate Explains(ts: seq<Token>, start: nat, r: Outcome)
    requires start <= |ts|
  {
    match r
    case Ok(t, e) =>
      WellFormed(t) && start < e <= |ts| && !ts[e - 1].Ignored? && Meaningful(ts, start, e) == Encode(t)
    case Ended =>
      exists t :: Completes(t, Meaningful(ts, start, |ts|))
    case NonStore(k) =>
      start <= k < |ts| && Forbidden(ts[k]) && exists t :: Completes(t, Meaningful(ts, start, k))
  }

  /** Where a failed parse stopped. */
  function Stop(ts: seq<Token>, r: Outcome): nat
    requires !r.Ok?
  {
    if r.NonStore? then r.index else |ts|
  }

  ghost predicate Stopped(ts: seq<Token>, start: nat, r: Outcome) {
    && !r.Ok? && start <= Stop(ts, r) <= |ts|
    && (r.NonStore? ==> r.index < |ts| && Forbidden(ts[r.index]))
  }

  lemma {:induction false} EncodeNonempty(t: Target)
    ensures Encode(t) != []
  {
    if t.Starred? {
      EncodeNonempty(t.value);
    }
  }

  lemma {:induction false} StuckOne(ts: seq<Token>, start: nat) returns (t: Target)
    requires start <= |ts| && !ParseOne(ts, start).Ok?
    ensures Stopped(ts, start, ParseOne(ts, start))
    ensures Completes(t, Meaningful(ts, start, Stop(ts, ParseOne(ts, start))))
    decreases |ts| - start, 0
  {
    var k := Skip(ts, start);
    t := Name("");
    SkipMeaningful(ts, start, start);
    if k < |ts| && !Forbidden(ts[k]) {
      var r := ParseOne(ts, start);
      var plain := StuckMany(ts, k + 1, Count(ts[k]));
      SkipMeaningful(ts, start, Stop(ts, r));
      StarredWellFormed(plain, Before(ts[k]), ts[k]);
      t := Tuple(Star(plain, Before(ts[k])));
      ConsPrefix(ts[k], EncodeAll(plain), Meaningful(ts, k + 1, Stop(ts, r)));
    }
  }

  lemma ConsPrefix(x: Token, code: seq<Token>, read: seq<Token>)
    requires |read| < |code| && code[..|read|] == read
    ensures ([x] + code)[..|[x] + read|] == [x] + read
  {
  }

  lemma {:induction false} StuckMany(ts: seq<Token>, start: nat, n: nat) returns (es: seq<Target>)
    requires start <= |ts| && ParseMany(ts, start, n).Failed?
    ensures Stopped(ts, start, ParseMany(ts, start, n).error)
    ensures |es| == n && forall j :: 0 <= j < n ==> WellFormed(es[j])
    ensures var read := Meaningful(ts, start, Stop(ts, ParseMany(ts, start, n).error));
            |read| < |EncodeAll(es)| && EncodeAll(es)[..|read|] == read
    decreases |ts| - start, n
  {
    var first := ParseOne(ts, start);
    var stop := Stop(ts, ParseMany(ts, start, n).error);
    if !first.Ok? {
      var t := StuckOne(ts, start);
      es := [t] + seq(n - 1, _ => Name(""));
    } else {
      var others := StuckMany(ts, first.end, n - 1);
      es := [first.target] + others;
      assert es[1..] == others;
      ParsedIsEncoding(ts, start);
      EncodeNonempty(first.target);
      AfterIsMeaningful(ts, start, Encode(first.target), first.end);
      MeaningfulSplit(ts, start, first.end, stop);
    }
  }

  lemma {:induction false} EncodingHasNoForbidden(t: Target)
    ensures forall x :: x in Encode(t) ==> !Forbidden(x)
    decreases t, 0
  {
    if t.Starred? {
      EncodingHasNoForbidden(t.value);
    } else if t.Tuple? {
      EncodingsHaveNoForbidden(t.elements);
    }
  }

  lemma {:induction false} EncodingsHaveNoForbidden(es: seq<Target>)
    ensures forall x :: x in EncodeAll(es) ==> !Forbidden(x)
    decreases es, 1
  {
    if es != [] {
      EncodingHasNoForbidden(es[0]);
      EncodingsHaveNoForbidden(es[1..]);
    }
  }

  /** Tokens in the range are either ignored or among the meaningful ones. */
  lemma {:induction false} MeaningfulMember(ts: seq<Token>, i: nat, k: nat, e: nat)
    requires i <= k < e <= |ts| && !ts[k].Ignored?
    ensures ts[k] in Meaningful(ts, i, e)
    decreases k - i
  {
    if i < k {
      MeaningfulMember(ts, i + 1, k, e);
    }
  }

  lemma PrefixMember(x: Token, code: seq<Token>, n: nat)
    requires n <= |code| && x in code[..n]
    ensures x in code
  {
  }

  lemma ForbiddenStops(ts: seq<Token>, start: nat, k: nat, e: nat, t: Target)
    requires start <= k < |ts| && Forbidden(ts[k]) && start <= e <= |ts|
    requires |Meaningful(ts, start, e)| <= |Encode(t)|
    requires Encode(t)[..|Meaningful(ts, start, e)|] == Meaningful(ts, start, e)
    ensures e <= k
  {
    if k < e {
      MeaningfulMember(ts, start, k, e);
      PrefixMember(ts[k], Encode(t), |Meaningful(ts, start, e)|);
      EncodingHasNoForbidden(t);
    }
  }

  lemma {:induction false} MeaningfulExtends(ts: seq<Token>, more: seq<Token>, i: nat, e: nat)
    requires i <= e <= |ts|
    ensures Meaningful(ts + more, i, e) == Meaningful(ts, i, e)
    decreases e - i
  {
    if i < e {
      MeaningfulExtends(ts, more, i + 1, e);
    }
  }

  lemma {:induction false} MeaningfulCode(ts: seq<Token>, i: nat)
    requires i <= |ts| && forall j :: i <= j < |ts| ==> !ts[j].Ignored?
    ensures Meaningful(ts, i, |ts|) == ts[i..]
    decreases |ts| - i
  {
    if i < |ts| {
      MeaningfulCode(ts, i + 1);
    }
  }

  lemma {:induction false} EncodingNotIgnored(t: Target)
    ensures forall x :: x in Encode(t) ==> !x.Ignored?
    decreases t, 0
  {
    if t.Starred? {
      EncodingNotIgnored(t.value);
    } else if t.Tuple? {
      EncodingsNotIgnored(t.elements);
    }
  }

  lemma {:induction false} EncodingsNotIgnored(es: seq<Target>)
    ensures forall x :: x in EncodeAll(es) ==> !x.Ignored?
    decreases es, 1
  {
    if es != [] {
      EncodingNotIgnored(es[0]);
      EncodingsNotIgnored(es[1..]);
    }
  }

  /** The parse of any target that the tokens encode: that target, consuming exactly its tokens. */
  lemma TargetRoundTrip(ts: seq<Token>, start: nat, t: Target, e: nat)
    requires start <= |ts| && WellFormed(t)
    requires start < e <= |ts| && !ts[e - 1].Ignored? && Meaningful(ts, start, e) == Encode(t)
    ensures ParseOne(ts, start) == Ok(t, e)
  {
    EncodeNonempty(t);
    AfterIsMeaningful(ts, start, Encode(t), e);
    EncodingParses(ts, start, t);
  }

  lemma Appended(ts: seq<Token>, start: nat, k: nat, e: nat, more: seq<Token>)
    requires start <= e <= k <= |ts|
    ensures var whole := ts[..k] + more;
            && (forall j :: 0 <= j < k ==> whole[j] == ts[j])
            && Meaningful(whole, start, k) == Meaningful(ts, start, k)
            && Meaningful(whole, start, e) == Meaningful(ts, start, e)
  {
    assert ts[..k] + ts[k..] == ts;
    MeaningfulExtends(ts[..k], ts[k..], start, k);
    MeaningfulExtends(ts[..k], ts[k..], start, e);
    MeaningfulExtends(ts[..k], more, start, k);
    MeaningfulExtends(ts[..k], more, start, e);
  }

  /** Tokens read up to k, completed by the rest of an encoding, parse to its end. */
  lemma CompletedParses(ts: seq<Token>, start: nat, u: Target, k: nat)
    requires start <= k <= |ts| && Completes(u, Meaningful(ts, start, k))
    ensures var whole := ts[..k] + Encode(u)[|Meaningful(ts, start, k)|..];
            ParseOne(whole, start) == Ok(u, |whole|)
  {
    hide Meaningful, WellFormed, Encode, ParseOne, Skip;
    var read := Meaningful(ts, start, k);
    var more := Encode(u)[|read|..];
    var whole := ts[..k] + more;
    Appended(ts, start, k, k, more);
    EncodingNotIgnored(u);
    MeaningfulCode(whole, k);
    MeaningfulSplit(whole, start, k, |whole|);
    assert whole[k..] == more;
    assert read + more == Encode(u);
    TargetRoundTrip(whole, start, u, |whole|);
  }

  /** No encoding is a proper prefix of another. */
  lemma PrefixFree(ts: seq<Token>, start: nat, t: Target, e: nat, u: Target, k: nat)
    requires start <= |ts| && Explains(ts, start, Ok(t, e)) && e <= k <= |ts|
    ensures !Completes(u, Meaningful(ts, start, k))
  {
    hide Meaningful, WellFormed, Encode, ParseOne, Skip;
    var read := Meaningful(ts, start, k);
    if Completes(u, read) {
      Appended(ts, start, k, e, Encode(u)[|read|..]);
      TargetRoundTrip(ts[..k] + Encode(u)[|read|..], start, t, e);
      CompletedParses(ts, start, u, k);
    }
  }

  /** Exactly one outcome fits the tokens, and the parser returns it. */
  lemma ParserExact(ts: seq<Token>, start: nat, r: Outcome)
    requires start <= |ts|
    ensures Explains(ts, start, r) <==> r == ParseOne(ts, start)
  {
    var p := ParseOne(ts, start);
    ParserExplains(ts, start);
    if Explains(ts, start, r) && r != p {
      AtMostOne(ts, start, r, p);
    }
  }

  lemma ParserExplains(ts: seq<Token>, start: nat)
    requires start <= |ts|
    ensures Explains(ts, start, ParseOne(ts, start))
  {
    var p := ParseOne(ts, start);
    if p.Ok? {
      ParsedIsEncoding(ts, start);
      EncodeNonempty(p.target);
      AfterIsMeaningful(ts, start, Encode(p.target), p.end);
    } else {
      var t := StuckOne(ts, start);
      assert Completes(t, Meaningful(ts, start, Stop(ts, p)));
    }
  }

  lemma AtMostOne(ts: seq<Token>, start: nat, r: Outcome, p: Outcome)
    requires start <= |ts| && Explains(ts, start, r) && Explains(ts, start, p)
    ensures r == p
  {
    hide Meaningful, WellFormed, Encode, ParseOne, Completes;
    if r.Ok? && p.Ok? {
      TargetRoundTrip(ts, start, r.target, r.end);
      TargetRoundTrip(ts, start, p.target, p.end);
    } else if r.Ok? {
      OkExcludes(ts, start, r, p);
    } else if p.Ok? {
      OkExcludes(ts, start, p, r);
    } else {
      StopsAgree(ts, start, r, p);
      StopsAgree(ts, start, p, r);
    }
  }

  lemma OkExcludes(ts: seq<Token>, start: nat, r: Outcome, p: Outcome)
    requires start <= |ts| && Explains(ts, start, r) && r.Ok? && !p.Ok?
    ensures !Explains(ts, start, p)
  {
    hide Meaningful, Completes, Encode, WellFormed;
    if Explains(ts, start, p) {
      var k := Stop(ts, p);
      if p.NonStore? {
        ForbiddenStops(ts, start, k, r.end, r.target);
      }
      forall u ensures !Completes(u, Meaningful(ts, start, k)) {
        PrefixFree(ts, start, r.target, r.end, u, k);
      }
    }
  }

  lemma StopsAgree(ts: seq<Token>, start: nat, r: Outcome, p: Outcome)
    requires start <= |ts| && Explains(ts, start, r) && Explains(ts, start, p)
    requires !r.Ok? && !p.Ok?
    ensures r.NonStore? ==> p.NonStore? && p.index <= r.index
  {
    if r.NonStore? {
      var k := Stop(ts, p);
      var u :| Completes(u, Meaningful(ts, start, k));
      ForbiddenStops(ts, start, r.index, k, u);
    }
  }

  // ---------- what the tokens do when they run ----------

  datatype Value = Atom(id: int) | List(items: seq<Value>)

  /** The machine: the stack, top first, and the names bound so far. */
  datatype State = Fault | Running(stack: seq<Value>, env: map<string, Value>)

  /** What one token does; UNPACK_EX keeps in its low byte how many values go before the list. */
  function Execute(token: Token, s: State): State {
    if s.Fault? || s.stack == [] then Fault
    else
      var v, rest := s.stack[0], s.stack[1..];
      match token
      case Store(name) => Running(rest, s.env[name := v])
      case UnpackSequence(n) =>
        if v.List? && |v.items| == n then Running(v.items + rest, s.env) else Fault
      case UnpackEx(argument) =>
        var before, after := argument % 256, argument / 256;
        if v.List? && before + after <= |v.items|
        then Running(Gathered(v.items, before, after) + rest, s.env)
        else Fault
      case _ => Fault
  }

  /** The values in the middle become one list. */
  function Gathered(items: seq<Value>, before: nat, after: nat): (r: seq<Value>)
    requires before + after <= |items|
    ensures |r| == before + 1 + after
  {
    items[..before] + [List(items[before..|items| - after])] + items[|items| - after..]
  }

  function ExecuteAll(code: seq<Token>, s: State): State {
    if code == [] then s else ExecuteAll(code[1..], Execute(code[0], s))
  }

  datatype Bindings = Mismatch | Bound(env: map<string, Value>)

  /** The meaning of assigning v to a target: names are bound from left to right. */
  function Assign(t: Target, v: Value, env: map<string, Value>): Bindings
    decreases t, 0
  {
    match t
    case Name(id) => Bound(env[id := v])
    case Starred(value) => Assign(value, v, env)
    case Tuple(es) => if Fits(es, v) then AssignAll(es, Shares(es, v), env) else Mismatch
  }

  function AssignAll(es: seq<Target>, values: seq<Value>, env: map<string, Value>): Bindings
    requires |es| == |values|
    decreases es, 1
  {
    if es == [] then Bound(env)
    else
      var first := Assign(es[0], values[0], env);
      if first.Mismatch? then Mismatch else AssignAll(es[1..], values[1..], first.env)
  }

  /** As many values as elements, or at least as many as the elements that are not starred. */
  predicate Fits(es: seq<Target>, v: Value) {
    v.List? && if exists i :: 0 <= i < |es| && es[i].Starred? then |es| - 1 <= |v.items| else |es| == |v.items|
  }

  /** Elements before the star count from the front, those after it from the back. */
  function Share(es: seq<Target>, items: seq<Value>, k: nat): Value
    requires k < |es| && Fits(es, List(items))
  {
    if es[k].Starred? then List(items[k..k + 1 + |items| - |es|])
    else if exists i :: 0 <= i < k && es[i].Starred? then items[|items| - |es| + k]
    else items[k]
  }

  function Shares(es: seq<Target>, v: Value): (r: seq<Value>)
    requires Fits(es, v)
    ensures |r| == |es|
  {
    seq(|es|, k requires 0 <= k < |es| => Share(es, v.items, k))
  }

  lemma {:induction false} FaultStays(code: seq<Token>)
    ensures ExecuteAll(code, Fault).Fault?
  {
    if code != [] {
      FaultStays(code[1..]);
    }
  }

  lemma {:induction false} ExecuteConcat(a: seq<Token>, b: seq<Token>, s: State)
    ensures ExecuteAll(a + b, s) == ExecuteAll(b, ExecuteAll(a, s))
  {
    if a == [] {
      assert a + b == b;
    } else {
      assert (a + b)[1..] == a[1..] + b;
      ExecuteConcat(a[1..], b, Execute(a[0], s));
    }
  }

  /** Where the machine stands after the bindings. */
  function Done(b: Bindings, rest: seq<Value>): State {
    if b.Mismatch? then Fault else Running(rest, b.env)
  }

  lemma OpenerShares(es: seq<Target>, v: Value, rest: seq<Value>, env: map<string, Value>)
    requires WellFormed(Tuple(es))
    ensures Execute(Opener(es), Running([v] + rest, env)) ==
            if Fits(es, v) then Running(Shares(es, v) + rest, env) else Fault
  {
    var k := StarAt(es);
    var s := Running([v] + rest, env);
    assert s.stack[1..] == rest;
    if k < |es| {
      var a := |es| - 1 - k;
      assert (k + a * 256) % 256 == k && (k + a * 256) / 256 == a;
      if Fits(es, v) {
        GatheredShares(es, v, k);
      }
    } else if Fits(es, v) {
      assert Shares(es, v) == v.items;
    }
  }

  lemma GatheredShares(es: seq<Target>, v: Value, k: nat)
    requires Fits(es, v) && k < |es| && es[k].Starred?
    requires forall i :: 0 <= i < |es| && i != k ==> !es[i].Starred?
    ensures Gathered(v.items, k, |es| - 1 - k) == Shares(es, v)
  {
    var a := |es| - 1 - k;
    forall j | 0 <= j < |es| ensures Gathered(v.items, k, a)[j] == Share(es, v.items, j) {
      if j == k {
        assert k + 1 + |v.items| - |es| == |v.items| - a;
      }
    }
  }

  /** The tokens of a target assign the value on top of the stack to it, and touch nothing below. */
  lemma {:induction false} EncodingAssigns(t: Target, v: Value, rest: seq<Value>, env: map<string, Value>)
    requires WellFormed(Bare(t))
    ensures ExecuteAll(Encode(t), Running([v] + rest, env)) == Done(Assign(t, v, env), rest)
    decreases t, 0
  {
    var s := Running([v] + rest, env);
    assert s.stack[1..] == rest;
    if t.Starred? {
      EncodingAssigns(t.value, v, rest, env);
    } else if t.Tuple? {
      assert Encode(t)[1..] == EncodeAll(t.elements);
      OpenerShares(t.elements, v, rest, env);
      if Fits(t.elements, v) {
        EncodingsAssign(t.elements, Shares(t.elements, v), rest, env);
      } else {
        FaultStays(EncodeAll(t.elements));
      }
    } else {
      assert Encode(t)[1..] == [];
    }
  }

  lemma {:induction false} EncodingsAssign(es: seq<Target>, values: seq<Value>, rest: seq<Value>,
                                           env: map<string, Value>)
    requires |es| == |values| && forall j :: 0 <= j < |es| ==> WellFormed(Bare(es[j]))
    ensures ExecuteAll(EncodeAll(es), Running(values + rest, env)) == Done(AssignAll(es, values, env), rest)
    decreases es, 1
  {
    hide WellFormed, Encode, Execute, Assign;
    if es == [] {
      assert values + rest == rest;
    } else {
      var first := Assign(es[0], values[0], env);
      assert values + rest == [values[0]] + (values[1..] + rest);
      ExecuteConcat(Encode(es[0]), EncodeAll(es[1..]), Running(values + rest, env));
      EncodingAssigns(es[0], values[0], values[1..] + rest, env);
      if first.Mismatch? {
        FaultStays(EncodeAll(es[1..]));
      } else {
        EncodingsAssign(es[1..], values[1..], rest, first.env);
      }
    }
  }

  /**
   A parsed target means what the tokens do: from start to the end of the parse they assign the
   value on top of the stack to it, and fault exactly when its shape does not fit.
   */
  lemma ParsedAssigns(ts: seq<Token>, start: nat, v: Value, rest: seq<Value>, env: map<string, Value>)
    requires start <= |ts| && ParseOne(ts, start).Ok?
    ensures var r := ParseOne(ts, start);
            && start < r.end <= |ts|
            && ExecuteAll(Meaningful(ts, start, r.end), Running([v] + rest, env))
               == Done(Assign(r.target, v, env), rest)
  {
    hide Encode, ParseOne, Meaningful, ExecuteAll, Assign;
    var r := ParseOne(ts, start);
    ParserExplains(ts, start);
    NotStarred(r.target);
    EncodingAssigns(r.target, v, rest, env);
  }

  lemma NotStarred(t: Target)
    requires WellFormed(t)
    ensures Bare(t) == t
  {
  }
}
