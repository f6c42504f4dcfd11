/**
 Which names a piece of emitted code may define. Every name below a base
 belongs to one step (variant and field), one variant's tail, the base itself,
 or to somebody else; pieces of code that own different parts of the name
 space do not disturb one another.
 */
module Frames {
  import opened Wrappers
  import opened Ir
  import opened EnumCode

  // ----- Ownership of names -----

  datatype Owner = Outside | Own | StepOf(i: nat, j: nat) | TailOf(i: nat)

  function OwnerOf(base: Name, n: Name): Owner {
    if |base| <= |n| && n[..|base|] == base then Classify(n[|base|..]) else Outside
  }

  /** A comparison at some base does not own its operands (base.lhs, base.rhs) or the addresses they came from. */
  function Classify(q: seq<Part>): Owner {
    if q == [] then Own
    else if q[0] in {Lhs, Rhs} then (if |q| > 1 && q[1] in {Tag, Slot} then Own else Outside)
    else if q[0] == VariantWord then ClassifyVariant(q)
    else if q[0] == EnumWord && |q| > 1 && q[1] in {Equal, Order} then ClassifyVariant(q[2..])
    else if q[0] == SameTag && |q| > 1 && q[1].Num? then TailOf(q[1].n)
    else if q[0] in {Same, SameTag} && |q| > 2 && q[2].Num? then TailOf(q[2].n)
    else Own
  }

  function ClassifyVariant(q: seq<Part>): Owner {
    if |q| > 3 && q[0] == VariantWord && q[1].Num? && q[3].Num? then StepOf(q[1].n, q[3].n)
    else if |q| > 1 && q[0] == VariantWord && q[1].Num? then TailOf(q[1].n)
    else Own
  }

  lemma {:induction false} OwnerOfSuffix(base: Name, q: seq<Part>)
    ensures OwnerOf(base, base + q) == Classify(q)
  {
    assert (base + q)[..|base|] == base && (base + q)[|base|..] == q;
  }

  /** Path from a comparison's base to the base of one step. */
  function StepPath(mode: Mode, i: nat, j: nat): seq<Part> {
    match mode
    case Nested => [VariantWord, Num(i), Field, Num(j)]
    case Equality => [EnumWord, Equal, VariantWord, Num(i), Field, Num(j)]
    case Ordering(_) => [EnumWord, Order, VariantWord, Num(i), Field, Num(j)]
  }

  lemma {:induction false} SubNamePath(mode: Mode, base: Name, i: nat, j: nat)
    ensures SubName(mode, base, i, j) == base + StepPath(mode, i, j)
  {
  }

  lemma {:induction false} StepPathOwned(mode: Mode, i: nat, j: nat, q: seq<Part>)
    ensures Classify(StepPath(mode, i, j) + q) == StepOf(i, j)
  {
    var full := StepPath(mode, i, j) + q;
    var path := [VariantWord, Num(i), Field, Num(j)] + q;
    assert path[0] == VariantWord && path[1] == Num(i) && path[3] == Num(j);
    if mode.Nested? {
      assert full == path;
    } else {
      assert full[0] == EnumWord && full[1] in {Equal, Order} && full[2..] == path;
    }
  }

  /** Whatever is named below a step's base belongs to that step. */
  lemma {:induction false} StepOwnsBelow(mode: Mode, base: Name, i: nat, j: nat, n: Name)
    requires var sub := SubName(mode, base, i, j); |sub| <= |n| && n[..|sub|] == sub
    ensures OwnerOf(base, n) == StepOf(i, j)
  {
    hide SubName, StepPath, Classify;
    var sub := SubName(mode, base, i, j);
    var q := n[|sub|..];
    SubNamePath(mode, base, i, j);
    assert n == sub + q == base + (StepPath(mode, i, j) + q);
    OwnerOfSuffix(base, StepPath(mode, i, j) + q);
    StepPathOwned(mode, i, j, q);
  }

  lemma {:induction false} StepOwnsBelowField(base: Name, i: nat, j: nat, q: seq<Part>)
    ensures OwnerOf(base, FieldName(base, i, j) + q) == StepOf(i, j)
  {
    var n := FieldName(base, i, j) + q;
    assert n[..|FieldName(base, i, j)|] == FieldName(base, i, j);
    StepOwnsBelow(Nested, base, i, j, n);
  }

  lemma {:induction false} StepOwnsSub(mode: Mode, base: Name, i: nat, j: nat, q: seq<Part>)
    ensures OwnerOf(base, SubName(mode, base, i, j) + q) == StepOf(i, j)
  {
    var n := SubName(mode, base, i, j) + q;
    assert n[..|SubName(mode, base, i, j)|] == SubName(mode, base, i, j);
    StepOwnsBelow(mode, base, i, j, n);
  }

  lemma {:induction false} StepOwnsMerge(base: Name, i: nat, word: Part, j: nat)
    ensures OwnerOf(base, MergeName(base, i, word, j)) == StepOf(i, j)
  {
    OwnerOfSuffix(base, [VariantWord, Num(i), word, Num(j)]);
  }

  // ----- Regions -----

  datatype Region =
    | Claimed(base: Name)
    | Ours(base: Name)
    | Steps(base: Name, i: nat, lo: nat, hi: nat)
    | Variants(base: Name, lo: nat, hi: nat)
    | Tail(base: Name, i: nat)

  predicate In(r: Region, n: Name) {
    var o := OwnerOf(r.base, n);
    match r
    case Claimed(_) => o != Outside
    case Ours(_) => o == Own
    case Steps(_, i, lo, hi) => o.StepOf? && o.i == i && lo <= o.j < hi
    case Variants(_, lo, hi) => (o.StepOf? || o.TailOf?) && lo <= o.i < hi
    case Tail(_, i) => o == TailOf(i)
  }

  // ----- States -----

  predicate Keeps(s: State, t: State) {
    && (forall n :: n in s.env ==> n in t.env && t.env[n] == s.env[n])
    && (forall n :: n in s.mem ==> n in t.mem && t.mem[n] == s.mem[n])
  }

  /** t is s with more temporaries and stack slots, all named inside r. */
  predicate Extends(s: State, t: State, r: Region) {
    && Keeps(s, t)
    && forall n :: n in t.Names() && n !in s.Names() ==> In(r, n)
  }

  predicate Clear(s: State, r: Region) {
    forall n :: n in s.Names() ==> !In(r, n)
  }

  lemma {:induction false} ExtendsKeeps(s: State, t: State, r: Region)
    requires Extends(s, t, r)
    ensures Keeps(s, t)
  {
  }

  lemma {:induction false} ExtendsTransitive(s: State, t: State, u: State, r: Region)
    requires Extends(s, t, r) && Extends(t, u, r)
    ensures Extends(s, u, r)
  {
    hide In;
  }

  lemma {:induction false} ExtendsWiden(s: State, t: State, r: Region, q: Region)
    requires Extends(s, t, r) && forall n :: In(r, n) ==> In(q, n)
    ensures Extends(s, t, q)
  {
    hide In;
  }

  lemma {:induction false} ClearKept(s: State, t: State, r: Region, q: Region)
    requires Extends(s, t, r) && Clear(s, q) && forall n :: In(q, n) ==> !In(r, n)
    ensures Clear(t, q)
  {
    hide In;
  }

  lemma {:induction false} ClearNarrow(s: State, r: Region, q: Region)
    requires Clear(s, r) && forall n :: In(q, n) ==> In(r, n)
    ensures Clear(s, q)
  {
    hide In;
  }

  lemma {:induction false} HoldsKept(s: State, t: State, o: Operand, v: Val)
    requires Keeps(s, t) && Holds(s, o, v)
    ensures Holds(t, o, v)
  {
  }

  // ----- Running code piece by piece -----

  lemma {:induction false} RunsSeq(odd: OddBool, a: seq<Line>, b: seq<Line>, s: State, t: State, u: State)
    requires Runs(odd, a, s, t) && Runs(odd, b, t, u)
    ensures Runs(odd, a + b, s, u)
  {
    RunsAppend(odd, a, b, s, t);
  }

  lemma {:induction false} RunsNothing(odd: OddBool, s: State)
    ensures Runs(odd, [], s, s)
  {
  }

  /** The same when the second piece is itself two pieces. */
  lemma {:induction false} RunsSeqPair(odd: OddBool, a: seq<Line>, b: seq<Line>, c: seq<Line>, s: State, t: State, u: State)
    requires Runs(odd, a, s, t) && Runs(odd, b + c, t, u)
    ensures Runs(odd, a + b + c, s, u)
  {
    RunsAppend(odd, a, b + c, s, t);
    assert a + (b + c) == a + b + c;
  }

  lemma {:induction false} RunsSeqTriple(odd: OddBool, a: seq<Line>, b: seq<Line>, c: seq<Line>, d: seq<Line>,
                                         s: State, t: State, u: State)
    requires Runs(odd, a, s, t) && Runs(odd, b + c + d, t, u)
    ensures Runs(odd, a + b + c + d, s, u)
  {
    RunsAppend(odd, a, b + c + d, s, t);
    assert a + (b + c + d) == a + b + c + d;
  }

  lemma {:induction false} BindExtends(s: State, target: Name, v: Val, r: Region)
    requires target !in s.Names() && In(r, target)
    ensures Extends(s, s.Bind(target, v), r)
    ensures s.Bind(target, v).Names() == s.Names() + {target}
  {
    hide In;
  }

  lemma {:induction false} RunsOne(odd: OddBool, s: State, line: Line, t: State)
    requires StepLine(odd, s, line) == Some(t)
    ensures Runs(odd, [line], s, t)
  {
    hide StepLine;
    RunsSnoc(odd, [], line, s, s);
    assert [] + [line] == [line];
  }

  /** One more definition of a fresh name. */
  lemma {:induction false} RunsDef(odd: OddBool, s: State, target: Name, expr: Expr, v: Val, r: Region)
    returns (t: State)
    requires target !in s.Names() && !expr.Alloca? && Eval(odd, s, expr) == Some(v) && In(r, target)
    ensures t == s.Bind(target, v)
    ensures Runs(odd, [Def(target, expr)], s, t)
    ensures Extends(s, t, r) && Holds(t, Temp(target), v) && t.Names() == s.Names() + {target}
  {
    hide Eval, In, Extends, Run;
    t := s.Bind(target, v);
    BindExtends(s, target, v, r);
    RunsOne(odd, s, Def(target, expr), t);
  }

  lemma {:induction false} ResolveKept(s: State, t: State, o: Operand)
    requires Keeps(s, t) && Resolve(s, o).Some?
    ensures Resolve(t, o) == Resolve(s, o)
  {
  }

  lemma {:induction false} EvalKept(odd: OddBool, s: State, t: State, e: Expr, v: Val)
    requires Keeps(s, t) && Eval(odd, s, e) == Some(v)
    ensures Eval(odd, t, e) == Some(v)
  {
    forall o | Resolve(s, o).Some? ensures Resolve(t, o) == Resolve(s, o) {
      ResolveKept(s, t, o);
    }
  }

  /** Three definitions that all evaluate in the state before them. */
  lemma {:induction false} RunsThree(odd: OddBool, s: State, n1: Name, e1: Expr, v1: Val, n2: Name, e2: Expr, v2: Val,
                                     n3: Name, e3: Expr, v3: Val, r: Region) returns (t: State)
    requires n1 !in s.Names() && n2 !in s.Names() && n3 !in s.Names() && n1 != n2 && n1 != n3 && n2 != n3
    requires In(r, n1) && In(r, n2) && In(r, n3)
    requires !e1.Alloca? && !e2.Alloca? && !e3.Alloca?
    requires Eval(odd, s, e1) == Some(v1) && Eval(odd, s, e2) == Some(v2) && Eval(odd, s, e3) == Some(v3)
    ensures Runs(odd, [Def(n1, e1)] + [Def(n2, e2)] + [Def(n3, e3)], s, t)
    ensures Extends(s, t, r) && t.Names() == s.Names() + {n1, n2, n3}
    ensures Holds(t, Temp(n1), v1) && Holds(t, Temp(n2), v2) && Holds(t, Temp(n3), v3)
  {
    hide Eval, In, Run;
    var a := RunsDef(odd, s, n1, e1, v1, r);
    EvalKept(odd, s, a, e2, v2);
    var b := RunsDef(odd, a, n2, e2, v2, r);
    ExtendsTransitive(s, a, b, r);
    EvalKept(odd, s, b, e3, v3);
    t := RunsDef(odd, b, n3, e3, v3, r);
    ExtendsTransitive(s, b, t, r);
    RunsSeq(odd, [Def(n1, e1)], [Def(n2, e2)], s, a, b);
    RunsSeq(odd, [Def(n1, e1)] + [Def(n2, e2)], [Def(n3, e3)], s, b, t);
  }
}
